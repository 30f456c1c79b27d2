/** How the client composes the breaker, the limiter and the retry loop, and how its calls nest:
    changing an issue's status runs two further guarded calls inside its own. */
module AgentClient {
  import opened JsText
  import opened Numbers
  import CB = CircuitBreakers
  import RL = RateLimiter

  // ---------------------------------------------------------------------------
  // The surroundings
  // ---------------------------------------------------------------------------

  /** What an SDK call comes back with: a success or an error, classified the way the client does. */
  datatype Reply = Good | Bad(auth: bool, retryable: bool, retryAfterMs: Option<real>)

  /** One stop at an `await`: the calls other users of the breaker make meanwhile, the time
      at which this call goes on, and what it was waiting for. */
  datatype Turn = Turn(others: seq<CB.Event>, at: real, reply: Reply, team: string)

  /** Configuration and surroundings; `turns` answers the stops one after the other. */
  datatype Setting = Setting(
    breaker: CB.Config, maxRetries: int, initialDelayMs: real, backoffMultiplier: real, maxDelayMs: real,
    turns: nat -> Turn)
  {
    function Attempts(): nat {
      if maxRetries < 0 then 0 else maxRetries + 1
    }
  }

  datatype Error =
    | CircuitOpen
    | UnknownError
    | Sdk(auth: bool, retryable: bool, retryAfterMs: Option<real>)

  predicate IsAuthError(e: Error) {
    e.Sdk? && e.auth
  }

  predicate IsRetryable(e: Error) {
    e.Sdk? && e.retryable
  }

  function RetryAfter(e: Error): Option<real> {
    if e.Sdk? then e.retryAfterMs else None
  }

  datatype Outcome = Ok | Err(error: Error)

  function Received(r: Reply): Outcome {
    match r
    case Good => Ok
    case Bad(a, t, ms) => Err(Sdk(a, t, ms))
  }

  /** The guarded calls: `getTeamStatuses` when not cached, `updateIssue`, `updateIssueStatus`. */
  datatype Call = FetchStatuses(team: string) | UpdateIssue | UpdateIssueStatus

  function Depth(call: Call): nat {
    if call.UpdateIssueStatus? then 1 else 0
  }

  /** What a call does to the limiter and the world, in order. */
  datatype Action =
    | Admitted(call: Call)
    | Refused(call: Call)
    | Token
    | Started(call: Call)
    | Succeeded(call: Call)
    | AuthFailed(call: Call)
    | Penalized(seconds: real)
    | Slept(ms: real)

  datatype World = World(breaker: CB.Breaker, now: real, cachedTeams: set<string>, apiCallCount: nat,
      log: seq<Action>, turn: nat) {
    function Note(a: Action): World {
      this.(log := log + [a])
    }

    /** Use up one stop: the others act, then this call goes on. */
    function Await(s: Setting): World {
      this.(breaker := CB.Run(s.breaker, breaker, s.turns(turn).others),
            now := s.turns(turn).at, turn := turn + 1)
    }

    function Report(s: Setting, a: CB.Action): World {
      this.(breaker := CB.Step(s.breaker, breaker, CB.Event(now, a)).0)
    }
  }

  // ---------------------------------------------------------------------------
  // The retry loop and what it runs
  // ---------------------------------------------------------------------------

  function CalculateDelay(s: Setting, attempt: nat): real {
    Min(s.initialDelayMs * Pow(s.backoffMultiplier, attempt), s.maxDelayMs)
  }

  /** Between two attempts: penalize the limiter if the error says how long, then sleep. */
  function BackOff(s: Setting, e: Error, attempt: nat, w: World): World {
    match RetryAfter(e)
    case Some(ms) => w.Note(Penalized(ms / 1000.0)).Note(Slept(ms)).Await(s)
    case None => w.Note(Slept(CalculateDelay(s, attempt))).Await(s)
  }

  /** The attempts from number `attempt` on. */
  function Retry(s: Setting, call: Call, attempt: nat, w: World): (Outcome, World)
    decreases Depth(call), 2, s.Attempts() - attempt
  {
    if attempt >= s.Attempts() then (Err(UnknownError), w)
    else
      var (out, w') := Attempt(s, call, w);
      if out.Ok? || attempt == s.maxRetries || !IsRetryable(out.error) then (out, w')
      else Retry(s, call, attempt + 1, BackOff(s, out.error, attempt, w'))
  }

  /** Ask the breaker; it answers whether to go on. */
  function Ask(s: Setting, call: Call, w: World): (World, bool) {
    var (b, admitted) := CB.Step(s.breaker, w.breaker, CB.Event(w.now, CB.CanProceed));
    (w.(breaker := b).Note(if admitted then Admitted(call) else Refused(call)), admitted)
  }

  /** Once admitted: wait for a token, then start. */
  function Start(s: Setting, call: Call, w: World): World {
    w.Await(s).Note(Token).Note(Started(call))
  }

  /** Report to the breaker: a success, an auth error, and nothing for any other error. */
  function Finish(s: Setting, call: Call, out: Outcome, w: World): World {
    if out.Ok? then w.Report(s, CB.RecordSuccess).(apiCallCount := w.apiCallCount + 1).Note(Succeeded(call))
    else if IsAuthError(out.error) then w.Report(s, CB.RecordAuthFailure).Note(AuthFailed(call))
    else w
  }

  function Attempt(s: Setting, call: Call, w: World): (Outcome, World)
    decreases Depth(call), 1, 0
  {
    var (asked, admitted) := Ask(s, call, w);
    if !admitted then (Err(CircuitOpen), asked)
    else
      var (out, done) := Body(s, call, Start(s, call, asked));
      (out, Finish(s, call, out, done))
  }

  /** The operation itself. Changing a status looks up the issue and its team, then the team's
      statuses unless cached, then the status by name, and then updates the issue. */
  function Body(s: Setting, call: Call, w: World): (Outcome, World)
    decreases Depth(call), 0, 0
  {
    var answer := s.turns(w.turn);
    var looked := w.Await(s);
    if answer.reply.Bad? then (Received(answer.reply), looked)
    else match call
      case FetchStatuses(team) => (Ok, looked.(cachedTeams := looked.cachedTeams + {team}))
      case UpdateIssue => (Ok, looked)
      case UpdateIssueStatus =>
        var (out, known) := if answer.team in looked.cachedTeams then (Ok, looked)
            else Retry(s, FetchStatuses(answer.team), 0, looked);
        if out.Err? then (out, known)
        else
          var status := s.turns(known.turn).reply;
          if status.Bad? then (Received(status), known.Await(s))
          else Retry(s, UpdateIssue, 0, known.Await(s))
  }

  // ---------------------------------------------------------------------------
  // Reading a log
  // ---------------------------------------------------------------------------

  function Tokens(log: seq<Action>): nat {
    if log == [] then 0 else Tokens(log[..|log| - 1]) + (if log[|log| - 1].Token? then 1 else 0)
  }

  /** Where a log stands: between calls, inside the opening of one, ended by a refusal, or out of order. */
  datatype Phase = Idle | HasAdmission(call: Call) | HasToken(call: Call) | Ended | Broken

  function Next(p: Phase, a: Action): Phase {
    match (p, a)
    case (Idle, Admitted(c)) => HasAdmission(c)
    case (HasAdmission(c), Token) => HasToken(c)
    case (HasToken(c), Started(d)) => if c == d then Idle else Broken
    case (Idle, Refused(_)) => Ended
    case (Idle, _) => if a.Token? || a.Started? then Broken else Idle
    case _ => Broken
  }

  function PhaseOf(log: seq<Action>): Phase {
    if log == [] then Idle else Next(PhaseOf(log[..|log| - 1]), log[|log| - 1])
  }

  lemma Noted(log: seq<Action>, a: Action)
    ensures PhaseOf(log + [a]) == Next(PhaseOf(log), a)
    ensures Tokens(log + [a]) == Tokens(log) + (if a.Token? then 1 else 0)
  {
    assert (log + [a])[..|log|] == log;
  }

  /** What an orderly log means: a call starts right after its own admission and one token, every token
      is taken that way, every admission leads there, and a refusal is the last thing that happens. */
  lemma {:induction false} OrderlyLog(log: seq<Action>)
    requires !PhaseOf(log).Broken?
    ensures forall i | 0 <= i < |log| && log[i].Started? ::
              i >= 2 && log[i - 1] == Token && log[i - 2] == Admitted(log[i].call)
    ensures forall i | 0 <= i < |log| && log[i].Token? :: i >= 1 && log[i - 1].Admitted?
    ensures forall i | 0 <= i < |log| && log[i].Refused? :: i == |log| - 1
    ensures forall i | 0 <= i < |log| - 2 && log[i].Admitted? ::
              log[i + 1] == Token && log[i + 2] == Started(log[i].call)
    ensures PhaseOf(log).HasAdmission? ==> log != [] && log[|log| - 1] == Admitted(PhaseOf(log).call)
    ensures PhaseOf(log).HasToken? ==>
              |log| >= 2 && log[|log| - 1] == Token && log[|log| - 2] == Admitted(PhaseOf(log).call)
    ensures PhaseOf(log).Idle? ==>
              log == [] || !(log[|log| - 1].Admitted? || log[|log| - 1].Token? || log[|log| - 1].Refused?)
    ensures PhaseOf(log).Ended? ==> log != [] && log[|log| - 1].Refused?
  {
    if log != [] {
      var init := log[..|log| - 1];
      OrderlyLog(init);
      forall i | 0 <= i < |init| ensures log[i] == init[i] {}
      if |log| >= 2 && log[|log| - 2].Admitted? { assert init[|init| - 1].Admitted?; }
      if |log| >= 3 && log[|log| - 3].Admitted? {
        assert init[|init| - 2].Admitted? && init[|init| - 1] == log[|log| - 2];
      }
    }
  }

  // ---------------------------------------------------------------------------
  // Order: every start is paid for, and a refusal is the end
  // ---------------------------------------------------------------------------

  /** From `w` to `w'` at most `tokens` were taken and no team was forgotten. */
  predicate Within(w: World, w': World, tokens: int) {
    Tokens(w'.log) <= Tokens(w.log) + tokens && w.cachedTeams <= w'.cachedTeams
  }

  lemma AskFacts(s: Setting, call: Call, w: World)
    requires PhaseOf(w.log) == Idle
    ensures var (w', admitted) := Ask(s, call, w);
            && PhaseOf(w'.log) == (if admitted then HasAdmission(call) else Ended)
            && Within(w, w', 0)
  {
    hide CB.Step, CB.Run, PhaseOf, Tokens;
    Noted(w.log, Admitted(call));
    Noted(w.log, Refused(call));
  }

  lemma StartFacts(s: Setting, call: Call, w: World)
    requires PhaseOf(w.log) == HasAdmission(call)
    ensures var w' := Start(s, call, w); PhaseOf(w'.log) == Idle && Within(w, w', 1) && w'.cachedTeams == w.cachedTeams
  {
    hide CB.Step, CB.Run, PhaseOf, Tokens;
    Noted(w.log, Token);
    Noted(w.log + [Token], Started(call));
  }

  lemma FinishFacts(s: Setting, call: Call, out: Outcome, w: World)
    requires PhaseOf(w.log) == (if out == Err(CircuitOpen) then Ended else Idle)
    ensures var w' := Finish(s, call, out, w);
            PhaseOf(w'.log) == PhaseOf(w.log) && Within(w, w', 0) && w'.cachedTeams == w.cachedTeams
  {
    hide CB.Step, CB.Run, PhaseOf, Tokens;
    Noted(w.log, Succeeded(call));
    Noted(w.log, AuthFailed(call));
  }

  lemma BackOffFacts(s: Setting, e: Error, attempt: nat, w: World)
    requires PhaseOf(w.log) == Idle
    ensures var w' := BackOff(s, e, attempt, w);
            PhaseOf(w'.log) == Idle && Within(w, w', 0) && w'.cachedTeams == w.cachedTeams
  {
    hide CB.Step, CB.Run, PhaseOf, Tokens, CalculateDelay;
    match RetryAfter(e)
    case Some(ms) =>
      Noted(w.log, Penalized(ms / 1000.0));
      Noted(w.log + [Penalized(ms / 1000.0)], Slept(ms));
    case None =>
      Noted(w.log, Slept(CalculateDelay(s, attempt)));
  }

  /** In every call, with any surroundings, each start follows one admission and one token, and once the
      breaker refuses an attempt, at whatever depth, nothing follows: the whole call ends there. */
  lemma {:induction false} CallsAreOrderly(s: Setting, call: Call, attempt: nat, w: World)
    requires PhaseOf(w.log) == Idle
    ensures var (out, w') := Retry(s, call, attempt, w);
        PhaseOf(w'.log) == (if out == Err(CircuitOpen) then Ended else Idle)
    decreases Depth(call), 2, s.Attempts() - attempt
  {
    if attempt < s.Attempts() {
      AttemptIsOrderly(s, call, w);
      var (out, w') := Attempt(s, call, w);
      if !(out.Ok? || attempt == s.maxRetries || !IsRetryable(out.error)) {
        BackOffFacts(s, out.error, attempt, w');
        CallsAreOrderly(s, call, attempt + 1, BackOff(s, out.error, attempt, w'));
      }
    }
  }

  lemma {:induction false} AttemptIsOrderly(s: Setting, call: Call, w: World)
    requires PhaseOf(w.log) == Idle
    ensures var (out, w') := Attempt(s, call, w); PhaseOf(w'.log) == (if out == Err(CircuitOpen) then Ended else Idle)
    decreases Depth(call), 1, 0
  {
    hide CB.Step, CB.Run, Ask, Start, Finish, PhaseOf, Tokens, Body, Retry;
    AskFacts(s, call, w);
    var (asked, admitted) := Ask(s, call, w);
    if admitted {
      StartFacts(s, call, asked);
      var started := Start(s, call, asked);
      BodyIsOrderly(s, call, started);
      var (out, done) := Body(s, call, started);
      FinishFacts(s, call, out, done);
    }
  }

  lemma {:induction false} BodyIsOrderly(s: Setting, call: Call, w: World)
    requires PhaseOf(w.log) == Idle
    ensures var (out, w') := Body(s, call, w); PhaseOf(w'.log) == (if out == Err(CircuitOpen) then Ended else Idle)
    decreases Depth(call), 0, 0
  {
    var answer := s.turns(w.turn);
    var looked := w.Await(s);
    if answer.reply.Good? && call.UpdateIssueStatus? {
      CallsAreOrderly(s, FetchStatuses(answer.team), 0, looked);
      var (out, known) := if answer.team in looked.cachedTeams then (Ok, looked)
          else Retry(s, FetchStatuses(answer.team), 0, looked);
      if out.Ok? && s.turns(known.turn).reply.Good? {
        CallsAreOrderly(s, UpdateIssue, 0, known.Await(s));
      }
    }
  }

  // ---------------------------------------------------------------------------
  // Cost
  // ---------------------------------------------------------------------------

  /** Every lookup of the issue reports the same team. */
  ghost predicate OneTeam(s: Setting, team: string) {
    forall k: nat :: s.turns(k).team == team
  }

  lemma LeafBody(s: Setting, call: Call, w: World)
    requires !call.UpdateIssueStatus?
    ensures var (out, w') := Body(s, call, w);
            && out != Err(CircuitOpen) && w'.log == w.log && w.cachedTeams <= w'.cachedTeams
            && (call.FetchStatuses? && out.Ok? ==> call.team in w'.cachedTeams)
  {
    hide CB.Step, CB.Run;
  }

  lemma LeafAttemptCost(s: Setting, call: Call, w: World)
    requires PhaseOf(w.log) == Idle && !call.UpdateIssueStatus?
    ensures var (out, w') := Attempt(s, call, w);
            && Within(w, w', 1)
            && (call.FetchStatuses? && out.Ok? ==> call.team in w'.cachedTeams)
  {
    hide CB.Step, CB.Run, Ask, Start, Finish, PhaseOf, Tokens, Body, Retry;
    AskFacts(s, call, w);
    var (asked, admitted) := Ask(s, call, w);
    if admitted {
      StartFacts(s, call, asked);
      var started := Start(s, call, asked);
      LeafBody(s, call, started);
      var (out, done) := Body(s, call, started);
      FinishFacts(s, call, out, done);
    }
  }

  lemma {:induction false} LeafCost(s: Setting, call: Call, attempt: nat, w: World)
    requires PhaseOf(w.log) == Idle && !call.UpdateIssueStatus? && attempt <= s.Attempts()
    ensures var (out, w') := Retry(s, call, attempt, w);
            && Within(w, w', s.Attempts() - attempt)
            && (call.FetchStatuses? && out.Ok? ==> call.team in w'.cachedTeams)
    decreases s.Attempts() - attempt
  {
    if attempt < s.Attempts() {
      LeafAttemptCost(s, call, w);
      AttemptIsOrderly(s, call, w);
      var (out, w') := Attempt(s, call, w);
      if !(out.Ok? || attempt == s.maxRetries || !IsRetryable(out.error)) {
        BackOffFacts(s, out.error, attempt, w');
        LeafCost(s, call, attempt + 1, BackOff(s, out.error, attempt, w'));
      }
    }
  }

  /** The cost of fetching `team`'s statuses if they were not known before and are now. */
  function FillCost(s: Setting, team: string, w: World, w': World): int {
    if team in w'.cachedTeams - w.cachedTeams then s.Attempts() else 0
  }

  lemma StatusBodyCost(s: Setting, team: string, w: World)
    requires PhaseOf(w.log) == Idle
    ensures var (out, w') := Body(s, UpdateIssueStatus, w);
            && Within(w, w', s.Attempts() + s.Attempts())
            && (OneTeam(s, team) ==> Within(w, w', s.Attempts() + FillCost(s, team, w, w')))
  {
    var answer := s.turns(w.turn);
    if answer.reply.Good? {
      var looked := w.Await(s);
      var fetch := FetchStatuses(answer.team);
      LeafCost(s, fetch, 0, looked);
      CallsAreOrderly(s, fetch, 0, looked);
      var (out, known) := if answer.team in looked.cachedTeams then (Ok, looked) else Retry(s, fetch, 0, looked);
      if out.Ok? && s.turns(known.turn).reply.Good? {
        LeafCost(s, UpdateIssue, 0, known.Await(s));
      }
    }
  }

  lemma StatusAttemptCost(s: Setting, team: string, w: World)
    requires PhaseOf(w.log) == Idle
    ensures var (out, w') := Attempt(s, UpdateIssueStatus, w);
            && Within(w, w', 1 + s.Attempts() + s.Attempts())
            && (OneTeam(s, team) ==> Within(w, w', 1 + s.Attempts() + FillCost(s, team, w, w')))
  {
    var call := UpdateIssueStatus;
    AskFacts(s, call, w);
    var (asked, admitted) := Ask(s, call, w);
    if admitted {
      StartFacts(s, call, asked);
      var started := Start(s, call, asked);
      BodyIsOrderly(s, call, started);
      var (out, done) := Body(s, call, started);
      FinishFacts(s, call, out, done);
      StatusBodyCost(s, team, started);
    }
  }

  function Times(k: nat, x: nat): nat {
    if k == 0 then 0 else x + Times(k - 1, x)
  }

  lemma {:induction false} TimesIsProduct(k: nat, x: nat)
    ensures Times(k, x) == k * x
  {
    if k > 0 {
      TimesIsProduct(k - 1, x);
      assert k * x == (k - 1) * x + x;
    }
  }

  lemma StatusCostAdds(s: Setting, team: string, w: World, w': World, v: World, last: World, k: nat)
    requires Within(w, w', 1 + s.Attempts() + FillCost(s, team, w, w'))
    requires Within(w', v, 0) && v.cachedTeams == w'.cachedTeams
    requires Within(v, last, Times(k, s.Attempts() + 1) + (if team in v.cachedTeams then 0 else s.Attempts()))
    ensures Within(w, last, Times(k + 1, s.Attempts() + 1) + (if team in w.cachedTeams then 0 else s.Attempts()))
  {
  }

  /** A bound for the remaining attempts of a status change: each costs its own token and those of the
      update, and only the one that fills the cache those of fetching the statuses as well. */
  lemma {:induction false} StatusCost(s: Setting, team: string, attempt: nat, w: World)
    requires PhaseOf(w.log) == Idle && OneTeam(s, team) && attempt <= s.Attempts()
    ensures var (_, w') := Retry(s, UpdateIssueStatus, attempt, w);
            var n := s.Attempts();
            Within(w, w', Times(n - attempt, n + 1) + (if team in w.cachedTeams then 0 else n))
    decreases s.Attempts() - attempt
  {
    hide Attempt, Body, BackOff, PhaseOf, Tokens;
    var n := s.Attempts();
    if attempt < n {
      AttemptIsOrderly(s, UpdateIssueStatus, w);
      StatusAttemptCost(s, team, w);
      var (out, w') := Attempt(s, UpdateIssueStatus, w);
      if !(out.Ok? || attempt == s.maxRetries || !IsRetryable(out.error)) {
        BackOffFacts(s, out.error, attempt, w');
        var v := BackOff(s, out.error, attempt, w');
        StatusCost(s, team, attempt + 1, v);
        StatusCostAdds(s, team, w, w', v, Retry(s, UpdateIssueStatus, attempt + 1, v).1, n - attempt - 1);
      }
    }
  }

  lemma {:induction false} StatusCostAnyTeams(s: Setting, attempt: nat, w: World)
    requires PhaseOf(w.log) == Idle && attempt <= s.Attempts()
    ensures var (_, w') := Retry(s, UpdateIssueStatus, attempt, w);
            Within(w, w', Times(s.Attempts() - attempt, 2 * s.Attempts() + 1))
    decreases s.Attempts() - attempt
  {
    hide Attempt, Body, BackOff, PhaseOf, Tokens;
    var n := s.Attempts();
    if attempt < n {
      AttemptIsOrderly(s, UpdateIssueStatus, w);
      StatusAttemptCost(s, "", w);
      var (out, w') := Attempt(s, UpdateIssueStatus, w);
      if !(out.Ok? || attempt == s.maxRetries || !IsRetryable(out.error)) {
        BackOffFacts(s, out.error, attempt, w');
        StatusCostAnyTeams(s, attempt + 1, BackOff(s, out.error, attempt, w'));
      }
    }
  }

  lemma TokenArithmetic(r: nat)
    ensures Times(r + 1, r + 2) + r + 1 == (r + 1) * (r + 3)
    ensures Times(r + 1, 2 * r + 3) == (r + 1) * (2 * r + 3)
  {
    TimesIsProduct(r + 1, r + 2);
    TimesIsProduct(r + 1, 2 * r + 3);
  }

  /** One status change uses at most (R + 1)(R + 3) tokens, R being the configured retries, when the
      issue stays in one team; without that, at most (R + 1)(2R + 3). */
  lemma StatusChangeTokens(s: Setting, w: World, team: string)
    requires PhaseOf(w.log) == Idle && s.maxRetries >= 0
    ensures var w' := Retry(s, UpdateIssueStatus, 0, w).1;
            var r := s.maxRetries;
            && (OneTeam(s, team) ==> Tokens(w'.log) - Tokens(w.log) <= (r + 1) * (r + 3))
            && Tokens(w'.log) - Tokens(w.log) <= (r + 1) * (2 * r + 3)
  {
    TokenArithmetic(s.maxRetries);
    StatusCostAnyTeams(s, 0, w);
    if OneTeam(s, team) {
      StatusCost(s, team, 0, w);
    }
  }

  // ---------------------------------------------------------------------------
  // Starts and the limiter's rate
  // ---------------------------------------------------------------------------

  /** How many calls have started. */
  function Starts(log: seq<Action>): nat {
    if log == [] then 0 else Starts(log[..|log| - 1]) + (if log[|log| - 1].Started? then 1 else 0)
  }

  /** In an orderly log every start has used a token of its own, and at most the last token waits for its start. */
  lemma {:induction false} StartsUseTokens(log: seq<Action>)
    requires !PhaseOf(log).Broken?
    ensures Starts(log) + (if PhaseOf(log).HasToken? then 1 else 0) == Tokens(log)
    decreases |log|
  {
    if log != [] {
      StartsUseTokens(log[..|log| - 1]);
    }
  }

  function AllStarts(logs: seq<seq<Action>>): nat {
    if logs == [] then 0 else AllStarts(logs[..|logs| - 1]) + Starts(logs[|logs| - 1])
  }

  function AllTokens(logs: seq<seq<Action>>): nat {
    if logs == [] then 0 else AllTokens(logs[..|logs| - 1]) + Tokens(logs[|logs| - 1])
  }

  lemma {:induction false} AllStartsUseTokens(logs: seq<seq<Action>>)
    requires forall i | 0 <= i < |logs| :: !PhaseOf(logs[i]).Broken?
    ensures AllStarts(logs) <= AllTokens(logs)
    decreases |logs|
  {
    if logs != [] {
      AllStartsUseTokens(logs[..|logs| - 1]);
      StartsUseTokens(logs[|logs| - 1]);
    }
  }

  /** The limiter bounds the calls that start: of any number of orderly calls whose tokens, taken in a window of time,
      are grants of one bucket, in any run of it from construction, at most a full bucket and what the window refills
      start. */
  lemma StartsWithinRate(logs: seq<seq<Action>>, c: RL.Config, start: real, earlier: seq<RL.Event>,
                         window: seq<RL.Event>, t0: real, t1: real)
    requires forall i | 0 <= i < |logs| :: !PhaseOf(logs[i]).Broken?
    requires c.Valid() && RL.PenaltiesForward(earlier) && RL.PenaltiesForward(window)
    requires RL.Possible(c, RL.Created(c, start), start, earlier)
    requires var b := RL.Run(c, RL.Created(c, start), earlier); RL.Possible(c, b, RL.LastTime(start, earlier), window)
    requires (forall i | 0 <= i < |window| :: t0 <= window[i].at <= t1) && t0 <= t1
    requires AllTokens(logs) <= |RL.Grants(c, RL.Run(c, RL.Created(c, start), earlier), window)|
    ensures AllStarts(logs) as real <= c.maxTokens + c.refillRate * (t1 - t0) / 1000.0
  {
    hide RL.Possible, RL.Grants, RL.Run, PhaseOf;
    AllStartsUseTokens(logs);
    RL.RateBound(c, start, earlier, window, t0, t1);
  }

  // ---------------------------------------------------------------------------
  // How often and after how long
  // ---------------------------------------------------------------------------

  predicate FailsRetryably(r: Reply) {
    r.Bad? && r.retryable
  }

  /** The sleeps in a log. */
  function Sleeps(log: seq<Action>): seq<real> {
    if log == [] then []
    else
      var last := log[|log| - 1];
      Sleeps(log[..|log| - 1]) + if last.Slept? then [last.ms] else []
  }

  /** The penalties in a log, in seconds. */
  function Penalties(log: seq<Action>): seq<real> {
    if log == [] then []
    else
      var last := log[|log| - 1];
      Penalties(log[..|log| - 1]) + if last.Penalized? then [last.seconds] else []
  }

  /** The wait a failed attempt calls for: as long as the server says, or else backed off. */
  function WaitFor(s: Setting, r: Reply, attempt: nat): real {
    if r.Bad? && r.retryAfterMs.Some? then r.retryAfterMs.value else CalculateDelay(s, attempt)
  }

  /** The waits after the attempts `from` to `n - 1` of a plain call whose first stop is `turn`: three stops
      to an attempt, for the token, the reply and the wait. */
  function Waits(s: Setting, turn: nat, from: nat, n: nat): seq<real>
    decreases n - from
  {
    if from >= n then [] else [WaitFor(s, s.turns(turn + 1).reply, from)] + Waits(s, turn + 3, from + 1, n)
  }

  /** The delays in milliseconds that the server asks for in its replies to these attempts. */
  function ServerDelays(s: Setting, turn: nat, from: nat, n: nat): seq<real>
    decreases n - from
  {
    if from >= n then []
    else
      var reply := s.turns(turn + 1).reply;
      (if reply.Bad? && reply.retryAfterMs.Some? then [reply.retryAfterMs.value] else [])
      + ServerDelays(s, turn + 3, from + 1, n)
  }

  /** What an admitted attempt of a plain call with the reply `r` leaves in the log. */
  function AttemptLog(call: Call, r: Reply): seq<Action> {
    [Admitted(call), Token, Started(call)]
    + if r.Good? then [Succeeded(call)] else if r.auth then [AuthFailed(call)] else []
  }

  function WaitLog(s: Setting, r: Reply, attempt: nat): seq<Action> {
    if r.Bad? && r.retryAfterMs.Some?
    then [Penalized(r.retryAfterMs.value / 1000.0), Slept(r.retryAfterMs.value)]
    else [Slept(CalculateDelay(s, attempt))]
  }

  /** What the attempts `from` to `n - 1` leave in the log, each with the wait that follows it. */
  function RetriedLog(s: Setting, call: Call, turn: nat, from: nat, n: nat): seq<Action>
    decreases n - from
  {
    if from >= n then []
    else
      var reply := s.turns(turn + 1).reply;
      AttemptLog(call, reply) + WaitLog(s, reply, from) + RetriedLog(s, call, turn + 3, from + 1, n)
  }

  lemma LeafAttempt(s: Setting, call: Call, w: World)
    requires !call.UpdateIssueStatus?
    ensures var (out, w') := Attempt(s, call, w);
            var reply := s.turns(w.turn + 1).reply;
            || (out == Err(CircuitOpen) && w'.log == w.log + [Refused(call)])
            || (out == Received(reply) && w'.turn == w.turn + 2 && w'.log == w.log + AttemptLog(call, reply))
  {
    hide CB.Step, CB.Run;
  }

  lemma BackOffLog(s: Setting, r: Reply, attempt: nat, w: World)
    requires r.Bad?
    ensures var w' := BackOff(s, Received(r).error, attempt, w);
            w'.log == w.log + WaitLog(s, r, attempt) && w'.turn == w.turn + 1
  {
    hide CB.Step, CB.Run, CalculateDelay;
  }

  lemma Regroup(log: seq<Action>, a: seq<Action>, b: seq<Action>, rest: seq<Action>, ending: seq<Action>)
    ensures log + a + b + rest + ending == log + (a + (b + rest)) + ending
  {
  }

  lemma {:induction false} LeafLog(s: Setting, call: Call, attempt: nat, w: World) returns (n: nat)
    requires !call.UpdateIssueStatus? && attempt <= s.maxRetries
    ensures attempt <= n <= s.maxRetries
    ensures var (out, w') := Retry(s, call, attempt, w);
            var last := s.turns(w.turn + 3 * (n - attempt) + 1).reply;
            && (forall i | 0 <= i < n - attempt :: FailsRetryably(s.turns(w.turn + 3 * i + 1).reply))
            && (out == Err(CircuitOpen) || (out == Received(last) && (FailsRetryably(last) ==> n == s.maxRetries)))
            && w'.log == w.log + RetriedLog(s, call, w.turn, attempt, n)
                         + (if out == Err(CircuitOpen) then [Refused(call)] else AttemptLog(call, last))
    decreases s.Attempts() - attempt
  {
    hide Attempt, BackOff, AttemptLog, WaitLog, RetriedLog;
    RetriedLogEmpty(s, call, w.turn, attempt);
    var (out, done) := Attempt(s, call, w);
    LeafAttempt(s, call, w);
    n := attempt;
    if out.Err? && attempt < s.maxRetries && IsRetryable(out.error) {
      var reply := s.turns(w.turn + 1).reply;
      BackOffLog(s, reply, attempt, done);
      var next := BackOff(s, out.error, attempt, done);
      n := LeafLog(s, call, attempt + 1, next);
      assert next.turn == w.turn + 3;
      RetriedLogCons(s, call, w.turn, attempt, n);
      Regroup(w.log, AttemptLog(call, reply), WaitLog(s, reply, attempt),
          RetriedLog(s, call, next.turn, attempt + 1, n),
          if Retry(s, call, attempt, w).0 == Err(CircuitOpen) then [Refused(call)]
          else AttemptLog(call, s.turns(w.turn + 3 * (n - attempt) + 1).reply));
      forall i | 0 <= i < n - attempt
        ensures FailsRetryably(s.turns(w.turn + 3 * i + 1).reply)
      {
        if i > 0 {
          assert w.turn + 3 * i + 1 == next.turn + 3 * (i - 1) + 1;
          assert FailsRetryably(s.turns(next.turn + 3 * (i - 1) + 1).reply);
        }
      }
      assert next.turn + 3 * (n - (attempt + 1)) + 1 == w.turn + 3 * (n - attempt) + 1;
    }
  }

  lemma RetriedLogEmpty(s: Setting, call: Call, turn: nat, n: nat)
    ensures RetriedLog(s, call, turn, n, n) == []
  {
  }

  lemma RetriedLogCons(s: Setting, call: Call, turn: nat, from: nat, n: nat)
    requires from < n
    ensures var reply := s.turns(turn + 1).reply;
            RetriedLog(s, call, turn, from, n)
            == AttemptLog(call, reply) + (WaitLog(s, reply, from) + RetriedLog(s, call, turn + 3, from + 1, n))
  {
    hide AttemptLog, WaitLog;
  }

  lemma {:induction false} WaitsConcat(a: seq<Action>, b: seq<Action>)
    ensures Sleeps(a + b) == Sleeps(a) + Sleeps(b)
    ensures Penalties(a + b) == Penalties(a) + Penalties(b)
    decreases |b|
  {
    if b == [] {
      assert a + b == a;
    } else {
      assert (a + b)[..|a + b| - 1] == a + b[..|b| - 1];
      WaitsConcat(a, b[..|b| - 1]);
    }
  }

  lemma WaitsOfOne(a: Action)
    ensures Sleeps([a]) == if a.Slept? then [a.ms] else []
    ensures Penalties([a]) == if a.Penalized? then [a.seconds] else []
  {
    assert [a][..0] == [];
  }

  lemma WaitsOfOpening(call: Call)
    ensures var opening := [Admitted(call), Token, Started(call)];
            Sleeps(opening) == Penalties(opening) == []
  {
    hide Sleeps, Penalties;
    WaitsOfOne(Admitted(call));
    WaitsOfOne(Token);
    WaitsOfOne(Started(call));
    WaitsConcat([Admitted(call)], [Token]);
    WaitsConcat([Admitted(call)] + [Token], [Started(call)]);
    assert [Admitted(call), Token, Started(call)] == [Admitted(call)] + [Token] + [Started(call)];
  }

  lemma WaitsOfWait(s: Setting, r: Reply, attempt: nat)
    ensures Sleeps(WaitLog(s, r, attempt)) == [WaitFor(s, r, attempt)]
    ensures Penalties(WaitLog(s, r, attempt))
         == if r.Bad? && r.retryAfterMs.Some? then [r.retryAfterMs.value / 1000.0] else []
  {
    hide CalculateDelay, Sleeps, Penalties;
    if r.Bad? && r.retryAfterMs.Some? {
      var ms := r.retryAfterMs.value;
      WaitsOfOne(Penalized(ms / 1000.0));
      WaitsOfOne(Slept(ms));
      WaitsConcat([Penalized(ms / 1000.0)], [Slept(ms)]);
      assert WaitLog(s, r, attempt) == [Penalized(ms / 1000.0)] + [Slept(ms)];
    } else {
      WaitsOfOne(Slept(CalculateDelay(s, attempt)));
    }
  }

  lemma AttemptWaits(s: Setting, call: Call, r: Reply, attempt: nat)
    ensures Sleeps(AttemptLog(call, r)) == Penalties(AttemptLog(call, r)) == []
    ensures Sleeps([Refused(call)]) == Penalties([Refused(call)]) == []
    ensures Sleeps(WaitLog(s, r, attempt)) == [WaitFor(s, r, attempt)]
    ensures Penalties(WaitLog(s, r, attempt))
         == if r.Bad? && r.retryAfterMs.Some? then [r.retryAfterMs.value / 1000.0] else []
  {
    hide WaitFor, WaitLog, Sleeps, Penalties;
    var opening := [Admitted(call), Token, Started(call)];
    WaitsOfWait(s, r, attempt);
    WaitsOfOpening(call);
    WaitsOfOne(Refused(call));
    WaitsOfOne(Succeeded(call));
    WaitsOfOne(AuthFailed(call));
    WaitsConcat(opening, [Succeeded(call)]);
    WaitsConcat(opening, [AuthFailed(call)]);
    assert opening + [] == opening;
  }

  /** `seconds` are these milliseconds in seconds, one by one. */
  ghost predicate InSeconds(seconds: seq<real>, ms: seq<real>) {
    |seconds| == |ms| && forall i | 0 <= i < |ms| :: seconds[i] == ms[i] / 1000.0
  }

  lemma WaitsCons(s: Setting, turn: nat, from: nat, n: nat)
    requires from < n
    ensures Waits(s, turn, from, n)
         == [WaitFor(s, s.turns(turn + 1).reply, from)] + Waits(s, turn + 3, from + 1, n)
  {
    hide WaitFor;
  }

  lemma ServerDelaysCons(s: Setting, turn: nat, from: nat, n: nat, seconds: seq<real>)
    requires from < n && InSeconds(seconds, ServerDelays(s, turn + 3, from + 1, n))
    ensures var r := s.turns(turn + 1).reply;
            var first := if r.Bad? && r.retryAfterMs.Some? then [r.retryAfterMs.value / 1000.0] else [];
            InSeconds(first + seconds, ServerDelays(s, turn, from, n))
  {
  }

  lemma WaitsOfThree(a: seq<Action>, b: seq<Action>, c: seq<Action>)
    requires Sleeps(a) == Penalties(a) == []
    ensures Sleeps(a + (b + c)) == Sleeps(b) + Sleeps(c)
    ensures Penalties(a + (b + c)) == Penalties(b) + Penalties(c)
  {
    hide Sleeps, Penalties;
    WaitsConcat(a, b + c);
    WaitsConcat(b, c);
  }

  /** The log of the retried attempts holds the waits they call for, and the server's delays as penalties in seconds. */
  ghost predicate WaitsRight(s: Setting, call: Call, turn: nat, from: nat, n: nat) {
    var log := RetriedLog(s, call, turn, from, n);
    Sleeps(log) == Waits(s, turn, from, n) && InSeconds(Penalties(log), ServerDelays(s, turn, from, n))
  }

  lemma WaitsRightStep(s: Setting, call: Call, turn: nat, from: nat, n: nat)
    requires from < n && WaitsRight(s, call, turn + 3, from + 1, n)
    ensures WaitsRight(s, call, turn, from, n)
  {
    hide AttemptLog, WaitLog, WaitFor, Sleeps, Penalties, InSeconds, ServerDelays, RetriedLog, Waits;
    var reply, rest := s.turns(turn + 1).reply, RetriedLog(s, call, turn + 3, from + 1, n);
    RetriedLogCons(s, call, turn, from, n);
    WaitsCons(s, turn, from, n);
    AttemptWaits(s, call, reply, from);
    WaitsOfThree(AttemptLog(call, reply), WaitLog(s, reply, from), rest);
    ServerDelaysCons(s, turn, from, n, Penalties(rest));
  }

  lemma {:induction false} RetriedWaits(s: Setting, call: Call, turn: nat, from: nat, n: nat)
    ensures WaitsRight(s, call, turn, from, n)
    decreases n - from
  {
    if from < n {
      hide WaitsRight;
      RetriedWaits(s, call, turn + 3, from + 1, n);
      WaitsRightStep(s, call, turn, from, n);
    }
  }

  /** How a plain call is retried: up to number `n` the attempts fail retryably, each followed by the wait it calls
      for and, if the server says how long, by that penalty for the limiter first; the call ends with attempt `n`,
      which was the last one allowed or did not fail retryably, or else by the breaker's refusal. Nothing else
      enters the log. */
  lemma LeafRetries(s: Setting, call: Call, attempt: nat, w: World) returns (n: nat)
    requires !call.UpdateIssueStatus? && attempt <= s.maxRetries
    ensures attempt <= n <= s.maxRetries
    ensures var (out, w') := Retry(s, call, attempt, w);
            var last := s.turns(w.turn + 3 * (n - attempt) + 1).reply;
            && (forall i | 0 <= i < n - attempt :: FailsRetryably(s.turns(w.turn + 3 * i + 1).reply))
            && (out == Err(CircuitOpen) || (out == Received(last) && (FailsRetryably(last) ==> n == s.maxRetries)))
            && w'.log == w.log + RetriedLog(s, call, w.turn, attempt, n)
                         + (if out == Err(CircuitOpen) then [Refused(call)] else AttemptLog(call, last))
            && Sleeps(w'.log) == Sleeps(w.log) + Waits(s, w.turn, attempt, n)
            && Penalties(w.log) <= Penalties(w'.log)
            && InSeconds(Penalties(w'.log)[|Penalties(w.log)|..], ServerDelays(s, w.turn, attempt, n))
  {
    hide Retry, RetriedLog, AttemptLog, Sleeps, Penalties, Waits, ServerDelays;
    n := LeafLog(s, call, attempt, w);
    var (out, w') := Retry(s, call, attempt, w);
    var last := s.turns(w.turn + 3 * (n - attempt) + 1).reply;
    var retried := RetriedLog(s, call, w.turn, attempt, n);
    var ending := if out == Err(CircuitOpen) then [Refused(call)] else AttemptLog(call, last);
    RetriedWaits(s, call, w.turn, attempt, n);
    AttemptWaits(s, call, last, n);
    WaitsConcat(w.log + retried, ending);
    WaitsConcat(w.log, retried);
    assert Penalties(w'.log) == Penalties(w.log) + Penalties(retried);
  }

  /** Hence a delay the server asks for is honoured by everybody: once the limiter has taken the `i`-th penalty of a
      plain call at the time `at`, it grants nothing before that delay has passed, unless a penalty that ends
      earlier replaces it. */
  lemma ServerDelayIsHonoured(s: Setting, call: Call, attempt: nat, w: World, i: nat, c: RL.Config, b: RL.Bucket,
                              now: real, at: real, run: seq<RL.Event>)
    returns (n: nat)
    requires !call.UpdateIssueStatus? && attempt <= s.maxRetries
    requires c.Valid() && RL.Inv(c, b, now) && now <= at
    requires RL.PenaltiesForward(run)
    ensures attempt <= n <= s.maxRetries
    ensures var w' := Retry(s, call, attempt, w).1;
            var delays, known := ServerDelays(s, w.turn, attempt, n), |Penalties(w.log)|;
            |Penalties(w'.log)| == known + |delays|
            && (i < |delays| && delays[i] >= 0.0 ==>
                  var d := RL.Step(c, b, RL.Event(at, RL.Penalize(Penalties(w'.log)[known + i]))).0;
                  RL.Possible(c, d, at, run) && RL.EndsNoEarlier(run, at + delays[i])
                  && (forall k | 0 <= k < |run| :: run[k].at < at + delays[i]) ==>
                    RL.Grants(c, d, run) == [])
  {
    hide Retry, RetriedLog, AttemptLog, Sleeps, Penalties, Waits, ServerDelays, RL.Step, RL.Possible, RL.Grants, RL.Inv;
    n := LeafRetries(s, call, attempt, w);
    var w' := Retry(s, call, attempt, w).1;
    var delays, known := ServerDelays(s, w.turn, attempt, n), |Penalties(w.log)|;
    assert |Penalties(w'.log)[known..]| == |delays|;
    if i < |delays| && delays[i] >= 0.0 {
      var x := Penalties(w'.log)[known + i];
      assert x == Penalties(w'.log)[known..][i] == delays[i] / 1000.0;
      var d := RL.Step(c, b, RL.Event(at, RL.Penalize(x))).0;
      if RL.Possible(c, d, at, run) && RL.EndsNoEarlier(run, at + delays[i])
         && forall k | 0 <= k < |run| :: run[k].at < at + delays[i] {
        assert x * 1000.0 == delays[i] && 1000.0 / c.refillRate > 0.0;
        RL.PenaltyHolds(c, b, now, at, x, run);
      }
    }
  }

  /** The first backed-off wait is the initial delay, and each further one is the one before it multiplied, both
      capped at the maximum. */
  lemma DelayRecurrence(s: Setting, k: nat)
    requires 0.0 <= s.initialDelayMs && 0.0 <= s.maxDelayMs && s.backoffMultiplier >= 1.0
    ensures CalculateDelay(s, 0) == if s.initialDelayMs <= s.maxDelayMs then s.initialDelayMs else s.maxDelayMs
    ensures var longer := CalculateDelay(s, k) * s.backoffMultiplier;
            CalculateDelay(s, k + 1) == if longer <= s.maxDelayMs then longer else s.maxDelayMs
  {
    var m, max := s.backoffMultiplier, s.maxDelayMs;
    assert Pow(m, 0) == 1.0;
    var whole := s.initialDelayMs * Pow(m, k);
    assert s.initialDelayMs * Pow(m, k + 1) == whole * m;
    if whole > max {
      assert max * m >= max;
      assert (whole - max) * m >= 0.0;
    }
  }

  /** Backed-off waits never exceed the maximum, and never get shorter with a multiplier of at least 1, nor longer with
      one of at most 1. */
  lemma {:induction false} DelaysLaw(s: Setting, i: nat, j: nat)
    requires i <= j
    ensures CalculateDelay(s, j) <= s.maxDelayMs
    ensures s.initialDelayMs >= 0.0 && s.backoffMultiplier >= 1.0 ==> CalculateDelay(s, i) <= CalculateDelay(s, j)
    ensures s.initialDelayMs >= 0.0 && 0.0 <= s.backoffMultiplier <= 1.0 ==>
        CalculateDelay(s, i) >= CalculateDelay(s, j)
    decreases j - i
  {
    DelayIsCapped(s, j);
    hide CalculateDelay;
    if i < j {
      DelaysLaw(s, i, j - 1);
      if s.initialDelayMs >= 0.0 && s.backoffMultiplier >= 0.0 { DelayStep(s, j - 1); }
    }
  }

  lemma DelayIsCapped(s: Setting, k: nat)
    ensures CalculateDelay(s, k) <= s.maxDelayMs
  {
  }

  lemma DelayStep(s: Setting, k: nat)
    requires s.initialDelayMs >= 0.0 && s.backoffMultiplier >= 0.0
    ensures s.backoffMultiplier >= 1.0 ==> CalculateDelay(s, k) <= CalculateDelay(s, k + 1)
    ensures s.backoffMultiplier <= 1.0 ==> CalculateDelay(s, k) >= CalculateDelay(s, k + 1)
  {
    PowNotNegative(s.backoffMultiplier, k);
    var p, q := Pow(s.backoffMultiplier, k), Pow(s.backoffMultiplier, k + 1);
    assert q == s.backoffMultiplier * p;
    hide Pow;
    Scales(s.initialDelayMs, s.backoffMultiplier, p, q);
  }

  lemma Scales(d: real, m: real, p: real, q: real)
    requires d >= 0.0 && p >= 0.0 && q == m * p
    ensures m >= 1.0 ==> d * p <= d * q
    ensures m <= 1.0 ==> d * p >= d * q
  {
    assert q - p == (m - 1.0) * p;
    if m >= 1.0 {
      assert q >= p;
      assert d * (q - p) >= 0.0;
    }
    if m <= 1.0 {
      assert q <= p;
      assert d * (p - q) >= 0.0;
    }
  }

  // ---------------------------------------------------------------------------
  // Successes
  // ---------------------------------------------------------------------------

  function Successes(log: seq<Action>): nat {
    if log == [] then 0 else Successes(log[..|log| - 1]) + (if log[|log| - 1].Succeeded? then 1 else 0)
  }

  lemma SuccessesNote(log: seq<Action>, a: Action)
    ensures Successes(log + [a]) == Successes(log) + (if a.Succeeded? then 1 else 0)
  {
    assert (log + [a])[..|log|] == log;
  }

  /** From `w` to `w'` as many calls were counted as succeeded. */
  predicate Counted(w: World, w': World) {
    w'.apiCallCount - w.apiCallCount == Successes(w'.log) - Successes(w.log)
  }

  /** The call counter counts the calls that succeed, nested ones included, and nothing else. */
  lemma {:induction false} SuccessesAreCounted(s: Setting, call: Call, attempt: nat, w: World)
    ensures Counted(w, Retry(s, call, attempt, w).1)
    decreases Depth(call), 2, s.Attempts() - attempt
  {
    hide CB.Step, CB.Run, Attempt, Body, BackOff, Successes;
    if attempt < s.Attempts() {
      AttemptIsCounted(s, call, w);
      var (out, w') := Attempt(s, call, w);
      if !(out.Ok? || attempt == s.maxRetries || !IsRetryable(out.error)) {
        WaitIsCounted(s, out.error, attempt, w');
        SuccessesAreCounted(s, call, attempt + 1, BackOff(s, out.error, attempt, w'));
      }
    }
  }

  lemma WaitIsCounted(s: Setting, e: Error, attempt: nat, w: World)
    ensures Counted(w, BackOff(s, e, attempt, w))
  {
    hide CB.Step, CB.Run, CalculateDelay, Successes;
    match RetryAfter(e)
    case Some(ms) =>
      SuccessesNote(w.log, Penalized(ms / 1000.0));
      SuccessesNote(w.log + [Penalized(ms / 1000.0)], Slept(ms));
    case None => SuccessesNote(w.log, Slept(CalculateDelay(s, attempt)));
  }

  lemma {:induction false} AttemptIsCounted(s: Setting, call: Call, w: World)
    ensures Counted(w, Attempt(s, call, w).1)
    decreases Depth(call), 1, 0
  {
    hide CB.Step, CB.Run, Body, Retry, Successes;
    var (asked, admitted) := Ask(s, call, w);
    SuccessesNote(w.log, if admitted then Admitted(call) else Refused(call));
    if admitted {
      var started := Start(s, call, asked);
      SuccessesNote(asked.log, Token);
      SuccessesNote(asked.log + [Token], Started(call));
      BodyIsCounted(s, call, started);
      var (out, done) := Body(s, call, started);
      SuccessesNote(done.log, if out.Ok? then Succeeded(call) else AuthFailed(call));
    }
  }

  lemma {:induction false} BodyIsCounted(s: Setting, call: Call, w: World)
    ensures Counted(w, Body(s, call, w).1)
    decreases Depth(call), 0, 0
  {
    hide CB.Step, CB.Run, Attempt, Retry, Successes;
    var answer := s.turns(w.turn);
    if answer.reply.Good? && call.UpdateIssueStatus? {
      var looked := w.Await(s);
      SuccessesAreCounted(s, FetchStatuses(answer.team), 0, looked);
      var (out, known) := if answer.team in looked.cachedTeams then (Ok, looked)
          else Retry(s, FetchStatuses(answer.team), 0, looked);
      if out.Ok? && s.turns(known.turn).reply.Good? {
        SuccessesAreCounted(s, UpdateIssue, 0, known.Await(s));
      }
    }
  }

  /** What a call that succeeds at once does, in order. */
  function Clean(call: Call, inner: seq<Action>): seq<Action> {
    [Admitted(call), Token, Started(call)] + inner + [Succeeded(call)]
  }

  lemma CleanLeaf(s: Setting, call: Call, w: World)
    requires Alone(s) && s.maxRetries >= 0 && w.breaker.state == CB.Closed && !call.UpdateIssueStatus?
    requires s.turns(w.turn + 1).reply.Good?
    ensures var (out, w') := Retry(s, call, 0, w);
            && out == Ok && w'.log == w.log + Clean(call, []) && w'.turn == w.turn + 2
            && w'.cachedTeams == (if call.FetchStatuses? then w.cachedTeams + {call.team} else w.cachedTeams)
            && w'.breaker.state == CB.Closed && w'.breaker.consecutiveFailures == 0
  {
    var (asked, _) := Ask(s, call, w);
    var started := Start(s, call, asked);
    assert started.turn == w.turn + 1 && started.breaker == w.breaker;
    var (out, done) := Body(s, call, started);
    assert out == Ok && done.log == started.log;
    assert Attempt(s, call, w) == (Ok, Finish(s, call, Ok, done));
  }

  /** When nothing goes wrong and nobody else is at the breaker, a status change fetches the statuses of the issue's
      team exactly if they are not known, and then updates the issue, both inside its own admission. */
  lemma CleanStatusChange(s: Setting, w: World)
    requires Alone(s) && s.maxRetries >= 0 && w.breaker.state == CB.Closed
    requires forall k: nat :: s.turns(k).reply.Good?
    ensures var (out, w') := Retry(s, UpdateIssueStatus, 0, w);
            var team := s.turns(w.turn + 1).team;
            var fetching := if team in w.cachedTeams then [] else Clean(FetchStatuses(team), []);
            && out == Ok && w'.cachedTeams == w.cachedTeams + {team}
            && w'.log == w.log + Clean(UpdateIssueStatus, fetching + Clean(UpdateIssue, []))
  {
    hide Clean;
    var call := UpdateIssueStatus;
    var (asked, _) := Ask(s, call, w);
    var started := Start(s, call, asked);
    assert started.turn == w.turn + 1 && started.breaker == w.breaker;
    var looked, fetch := started.Await(s), FetchStatuses(s.turns(w.turn + 1).team);
    CleanLeaf(s, fetch, looked);
    var known := if fetch.team in looked.cachedTeams then looked else Retry(s, fetch, 0, looked).1;
    CleanLeaf(s, UpdateIssue, known.Await(s));
    var (out, updated) := Retry(s, UpdateIssue, 0, known.Await(s));
    assert Body(s, call, started) == (Ok, updated);
    var fetching := if fetch.team in w.cachedTeams then [] else Clean(fetch, []);
    assert updated.log == started.log + fetching + Clean(UpdateIssue, []);
    CleanWraps(w.log, call, fetching, Clean(UpdateIssue, []));
    assert Attempt(s, call, w) == (Ok, Finish(s, call, Ok, updated));
  }

  lemma CleanWraps(log: seq<Action>, call: Call, a: seq<Action>, b: seq<Action>)
    ensures log + [Admitted(call)] + [Token] + [Started(call)] + a + b + [Succeeded(call)]
         == log + Clean(call, a + b)
  {
  }

  // ---------------------------------------------------------------------------
  // Nested calls and the breaker
  // ---------------------------------------------------------------------------

  /** Nobody else uses the breaker meanwhile. */
  ghost predicate Alone(s: Setting) {
    forall k: nat :: s.turns(k).others == []
  }

  /** Whatever others do meanwhile, they report nothing to the breaker. */
  ghost predicate OthersSilent(s: Setting) {
    forall k: nat, i | 0 <= i < |s.turns(k).others| :: !CB.Reports(s.turns(k).others[i].action)
  }

  predicate AuthReply(r: Reply) {
    r.Bad? && r.auth
  }

  /** Where the error of a status change comes from: one of its own two lookups, or a nested guarded call. */
  datatype Origin = Own | Nested(call: Call)

  /** The origin of the error in the body of a status change that has just started. */
  function OriginOf(s: Setting, w: World): Origin {
    var answer := s.turns(w.turn);
    if answer.reply.Bad? then Own
    else
      var looked, fetch := w.Await(s), FetchStatuses(answer.team);
      var (out, known) := if answer.team in looked.cachedTeams then (Ok, looked) else Retry(s, fetch, 0, looked);
      if out.Err? then Nested(fetch) else if s.turns(known.turn).reply.Bad? then Own else Nested(UpdateIssue)
  }

  /** The breaker after one more auth failure. */
  function Failed(s: Setting, b: CB.Breaker, at: real): CB.Breaker {
    CB.Step(s.breaker, b, CB.Event(at, CB.RecordAuthFailure)).0
  }

  /** A plain call that ends in an auth error has reported it last. */
  lemma {:induction false} LeafReportsLast(s: Setting, call: Call, attempt: nat, w: World) returns (b: CB.Breaker)
    requires !call.UpdateIssueStatus? && Retry(s, call, attempt, w).0.Err?
    requires IsAuthError(Retry(s, call, attempt, w).0.error)
    ensures var w' := Retry(s, call, attempt, w).1;
            && w'.log != [] && w'.log[|w'.log| - 1] == AuthFailed(call)
            && w'.breaker == Failed(s, b, w'.now)
    decreases s.Attempts() - attempt
  {
    hide CB.Step, CB.Run, BackOff, Attempt;
    var (out, done) := Attempt(s, call, w);
    if out.Err? && attempt < s.maxRetries && IsRetryable(out.error) {
      b := LeafReportsLast(s, call, attempt + 1, BackOff(s, out.error, attempt, done));
    } else {
      b := AttemptReportsLast(s, call, w);
    }
  }

  lemma AttemptReportsLast(s: Setting, call: Call, w: World) returns (b: CB.Breaker)
    requires Attempt(s, call, w).0.Err? && IsAuthError(Attempt(s, call, w).0.error)
    ensures Ask(s, call, w).1
    ensures var (out, w') := Attempt(s, call, w);
            var done := Body(s, call, Start(s, call, Ask(s, call, w).0)).1;
            && w'.log == done.log + [AuthFailed(call)]
            && b == done.breaker && w'.breaker == Failed(s, b, w'.now) && w'.now == done.now
    ensures Body(s, call, Start(s, call, Ask(s, call, w).0)).0 == Attempt(s, call, w).0
  {
    hide CB.Step, CB.Run, Body, Retry;
    b := Body(s, call, Start(s, call, Ask(s, call, w).0)).1.breaker;
  }

  lemma {:induction false} LeafSuccessLast(s: Setting, call: Call, attempt: nat, w: World)
    requires !call.UpdateIssueStatus? && Retry(s, call, attempt, w).0.Ok?
    ensures var w' := Retry(s, call, attempt, w).1; w'.log != [] && w'.log[|w'.log| - 1] == Succeeded(call)
    decreases s.Attempts() - attempt
  {
    hide CB.Step, CB.Run, BackOff, Ask, Start, Body;
    var (out, done) := Attempt(s, call, w);
    if out.Err? && attempt < s.maxRetries && IsRetryable(out.error) {
      LeafSuccessLast(s, call, attempt + 1, BackOff(s, out.error, attempt, done));
    }
  }

  lemma StartedLast(s: Setting, call: Call, w: World)
    ensures var log := Start(s, call, w).log; log != [] && log[|log| - 1] == Started(call)
  {
  }

  /** The end of the log when the body of a status change ends in an auth error: a report of it by the nested call it
      comes from, or else no report of an auth error. */
  lemma BodyAuthError(s: Setting, w: World) returns (b: CB.Breaker)
    requires w.log != [] && w.log[|w.log| - 1] == Started(UpdateIssueStatus)
    requires Body(s, UpdateIssueStatus, w).0.Err? && IsAuthError(Body(s, UpdateIssueStatus, w).0.error)
    ensures var done := Body(s, UpdateIssueStatus, w).1;
            && done.log != []
            && (match OriginOf(s, w)
                case Own => !done.log[|done.log| - 1].AuthFailed?
                case Nested(call) =>
                  done.log[|done.log| - 1] == AuthFailed(call) && done.breaker == Failed(s, b, done.now))
  {
    hide CB.Step, CB.Run, Attempt, BackOff, Failed;
    b := w.breaker;
    var answer := s.turns(w.turn);
    if answer.reply.Good? {
      var looked, fetch := w.Await(s), FetchStatuses(answer.team);
      var (out, known) := if answer.team in looked.cachedTeams then (Ok, looked) else Retry(s, fetch, 0, looked);
      if out.Err? {
        b := LeafReportsLast(s, fetch, 0, looked);
      } else {
        if answer.team !in looked.cachedTeams { LeafSuccessLast(s, fetch, 0, looked); }
        if s.turns(known.turn).reply.Good? {
          b := LeafReportsLast(s, UpdateIssue, 0, known.Await(s));
        }
      }
    }
  }

  /** How often an auth error that ends an attempt of a status change counts, for every setting and every surrounding:
      once, by the status change, if it is an error of its own, and twice, by the nested call and right after that
      by the status change, if it comes from a nested call, be it the update or the fetching of statuses. */
  lemma AuthErrorLaw(s: Setting, w: World) returns (b: CB.Breaker)
    requires Attempt(s, UpdateIssueStatus, w).0.Err? && IsAuthError(Attempt(s, UpdateIssueStatus, w).0.error)
    ensures var w' := Attempt(s, UpdateIssueStatus, w).1;
            var log, n := w'.log, |w'.log|;
            && n >= 2 && log[n - 1] == AuthFailed(UpdateIssueStatus)
            && (match OriginOf(s, Start(s, UpdateIssueStatus, Ask(s, UpdateIssueStatus, w).0))
                case Own => !log[n - 2].AuthFailed? && w'.breaker == Failed(s, b, w'.now)
                case Nested(call) => log[n - 2] == AuthFailed(call)
                                     && w'.breaker == Failed(s, Failed(s, b, w'.now), w'.now))
  {
    hide CB.Step, CB.Run, Body, Retry, Attempt, OriginOf, Failed;
    var call := UpdateIssueStatus;
    var started := Start(s, call, Ask(s, call, w).0);
    StartedLast(s, call, Ask(s, call, w).0);
    b := AttemptReportsLast(s, call, w);
    var nested := BodyAuthError(s, started);
    if OriginOf(s, started).Nested? { b := nested; }
  }

  /** Two reports at one moment make two failures, and trip a closed breaker that is two short of its threshold. */
  lemma TwoFailures(s: Setting, b: CB.Breaker, at: real)
    requires b.state == CB.Closed
    ensures var f := Failed(s, Failed(s, b, at), at);
            && f.consecutiveFailures == b.consecutiveFailures + 2
            && (f.state == CB.Open <==> b.consecutiveFailures + 2 >= s.breaker.failureThreshold)
  {
  }

  /** For instance, with nobody else at the breaker, one auth error of the nested update adds two failures, which trips
      a breaker with the default threshold of two from its initial state. */
  lemma NestedAuthErrorCountsTwice(s: Setting, w: World)
    requires Alone(s) && s.maxRetries >= 0 && w.breaker.state == CB.Closed
    requires s.turns(w.turn + 1).reply.Good? && s.turns(w.turn + 1).team in w.cachedTeams
    requires s.turns(w.turn + 2).reply.Good?
    requires AuthReply(s.turns(w.turn + 4).reply) && !s.turns(w.turn + 4).reply.retryable
    ensures var (out, w') := Retry(s, UpdateIssueStatus, 0, w);
            && out.Err?
            && w'.breaker.consecutiveFailures == w.breaker.consecutiveFailures + 2
            && (w'.breaker.state == CB.Open <==> w.breaker.consecutiveFailures + 2 >= s.breaker.failureThreshold)
  {
    var (asked, _) := Ask(s, UpdateIssueStatus, w);
    var started := Start(s, UpdateIssueStatus, asked);
    assert started.turn == w.turn + 1 && started.breaker == w.breaker;
    var ready := started.Await(s).Await(s);
    assert ready.turn == w.turn + 3 && ready.breaker == w.breaker;
    NestedUpdateFailsAuth(s, ready);
    var (out, failed) := Retry(s, UpdateIssue, 0, ready);
    assert Body(s, UpdateIssueStatus, started) == (out, failed);
    assert Attempt(s, UpdateIssueStatus, w) == (out, Finish(s, UpdateIssueStatus, out, failed));
  }

  lemma NestedUpdateFailsAuth(s: Setting, w: World)
    requires Alone(s) && s.maxRetries >= 0 && w.breaker.state == CB.Closed
    requires AuthReply(s.turns(w.turn + 1).reply) && !s.turns(w.turn + 1).reply.retryable
    ensures var (out, w') := Retry(s, UpdateIssue, 0, w);
            && out == Received(s.turns(w.turn + 1).reply)
            && w'.breaker == CB.Step(s.breaker, w.breaker, CB.Event(w'.now, CB.RecordAuthFailure)).0
  {
    var (asked, _) := Ask(s, UpdateIssue, w);
    var started := Start(s, UpdateIssue, asked);
    assert started.turn == w.turn + 1 && started.breaker == w.breaker;
    assert Attempt(s, UpdateIssue, w) == (Received(s.turns(w.turn + 1).reply),
                                          Finish(s, UpdateIssue, Received(s.turns(w.turn + 1).reply),
                                              started.Await(s)));
  }

  /** A status change whose first lookup fails ends with that error and nothing else; one whose team is known and whose
      second lookup fails ends with that one. */
  lemma StatusErrors(s: Setting, w: World)
    requires Ask(s, UpdateIssueStatus, w).1
    ensures var out := Attempt(s, UpdateIssueStatus, w).0;
            var issue, status := s.turns(w.turn + 1), s.turns(w.turn + 2);
            && (issue.reply.Bad? ==> out == Received(issue.reply))
            && (issue.reply.Good? && issue.team in w.cachedTeams && status.reply.Bad? ==>
                  out == Received(status.reply))
  {
    hide CB.Step, CB.Run, Retry;
  }

  /** The next admission will be a half-open probe. */
  predicate ProbeDue(w: World) {
    || (w.breaker.state == CB.HalfOpen && !w.breaker.probeInFlight)
    || (w.breaker.state == CB.Open && w.now - w.breaker.openedAt >= w.breaker.currentResetTimeoutMs)
  }

  predicate ProbeOut(w: World) {
    w.breaker.state == CB.HalfOpen && w.breaker.probeInFlight
  }

  lemma ProbeHolds(s: Setting, w: World)
    requires OthersSilent(s) && ProbeOut(w)
    ensures w.Await(s).breaker == w.breaker
  {
    CB.UnreportedProbeBlocks(s.breaker, w.breaker, s.turns(w.turn).others);
  }

  /** While a probe is out, every guarded call is refused at once and changes nothing. */
  lemma RefusedDuringProbe(s: Setting, call: Call, attempt: nat, w: World)
    requires ProbeOut(w) && attempt < s.Attempts()
    ensures Retry(s, call, attempt, w) == (Err(CircuitOpen), w.Note(Refused(call)))
  {
    assert Ask(s, call, w) == (w.Note(Refused(call)), false);
  }

  /** A plain call as the probe closes the breaker with a success, reopens it with an auth error, and with
      any other error leaves it half-open with the probe out. */
  lemma LeafProbe(s: Setting, call: Call, w: World)
    requires OthersSilent(s) && ProbeDue(w) && !call.UpdateIssueStatus?
    ensures var (out, w') := Attempt(s, call, w);
            var reply := s.turns(w.turn + 1).reply;
            && out == Received(reply)
            && (w'.breaker.state == CB.Closed <==> reply.Good?)
            && (w'.breaker.state == CB.Open <==> AuthReply(reply))
            && (ProbeOut(w') <==> reply.Bad? && !reply.auth)
  {
    var (asked, admitted) := Ask(s, call, w);
    ProbeHolds(s, asked);
    var started := Start(s, call, asked);
    ProbeHolds(s, started);
  }

  /** The status change meets an auth error of its own, before any nested guarded call. */
  predicate OwnAuthError(s: Setting, w: World) {
    var issue, status := s.turns(w.turn + 1), s.turns(w.turn + 2);
    AuthReply(issue.reply) || (issue.reply.Good? && issue.team in w.cachedTeams && AuthReply(status.reply))
  }

  /** A status change as the probe never succeeds, since its nested calls are refused while it is out, and
      never closes the breaker: it reopens it after an auth error of its own, and otherwise leaves the probe out. */
  lemma StatusChangeProbe(s: Setting, w: World)
    requires OthersSilent(s) && ProbeDue(w) && s.maxRetries >= 0
    ensures var (out, w') := Attempt(s, UpdateIssueStatus, w);
            && out.Err?
            && (w'.breaker.state == CB.Open <==> OwnAuthError(s, w))
            && (ProbeOut(w') <==> !OwnAuthError(s, w))
  {
    var call := UpdateIssueStatus;
    var (asked, admitted) := Ask(s, call, w);
    ProbeHolds(s, asked);
    var started := Start(s, call, asked);
    ProbeHolds(s, started);
    var looked := started.Await(s);
    ProbeHolds(s, looked);
    var answer := s.turns(w.turn + 1);
    RefusedDuringProbe(s, FetchStatuses(answer.team), 0, looked);
    RefusedDuringProbe(s, UpdateIssue, 0, looked.Await(s));
    var (out, done) := Body(s, call, started);
    assert out.Err? && done.breaker == asked.breaker;
    assert IsAuthError(out.error) <==> OwnAuthError(s, w);
  }

  lemma NextAttemptRefused(s: Setting, e: Error, w: World)
    requires OthersSilent(s) && ProbeOut(w) && s.maxRetries >= 1
    ensures var (out, w') := Retry(s, UpdateIssueStatus, 1, BackOff(s, e, 0, w)); out.Err? && ProbeOut(w')
  {
    match RetryAfter(e)
    case Some(ms) =>
      ProbeHolds(s, w.Note(Penalized(ms / 1000.0)).Note(Slept(ms)));
      RefusedDuringProbe(s, UpdateIssueStatus, 1, BackOff(s, e, 0, w));
    case None =>
      ProbeHolds(s, w.Note(Slept(CalculateDelay(s, 0))));
      RefusedDuringProbe(s, UpdateIssueStatus, 1, BackOff(s, e, 0, w));
  }

  /** So a breaker whose probe happens to be a status change that meets no auth error of its own stays
      half-open with the probe out, and by `CB.UnreportedProbeBlocks` admits nobody until a reset
      or a report from elsewhere. */
  lemma StatusChangeBlocksBreaker(s: Setting, w: World)
    requires OthersSilent(s) && ProbeDue(w) && s.maxRetries >= 0 && !OwnAuthError(s, w)
    ensures var (out, w') := Retry(s, UpdateIssueStatus, 0, w); out.Err? && ProbeOut(w')
  {
    StatusChangeProbe(s, w);
    var (out, w') := Attempt(s, UpdateIssueStatus, w);
    if s.maxRetries >= 1 {
      NextAttemptRefused(s, out.error, w');
    }
  }

  // ---------------------------------------------------------------------------
  // The client as an object
  // ---------------------------------------------------------------------------

  class LinearAgentClient {
    const setting: Setting
    const circuitBreaker: CB.CircuitBreaker
    var statusCache: set<string>
    var apiCallCount: nat
    // What the surroundings see of this client, and how far they have come.
    var now: real
    var log: seq<Action>
    var turn: nat

    ghost predicate Valid() {
      circuitBreaker.config == setting.breaker
    }

    ghost function View(): World
      reads this, circuitBreaker
    {
      World(circuitBreaker.View(), now, statusCache, apiCallCount, log, turn)
    }

    constructor (s: Setting, start: real)
      ensures Valid() && setting == s
      ensures View() == World(CB.Created(s.breaker), start, {}, 0, [], 0)
      ensures fresh(circuitBreaker)
    {
      setting := s;
      circuitBreaker := new CB.CircuitBreaker(s.breaker);
      statusCache, apiCallCount, now, log, turn := {}, 0, start, [], 0;
    }

    method Note(a: Action)
      modifies this`log
      ensures View() == old(View()).Note(a)
    {
      log := log + [a];
    }

    /** Others use the shared breaker, then this client goes on. */
    method Await()
      requires Valid()
      modifies this`now, this`turn, circuitBreaker
      ensures View() == old(View()).Await(setting)
    {
      var others := setting.turns(turn).others;
      ghost var before := circuitBreaker.View();
      for k := 0 to |others|
        invariant turn == old(turn)
        invariant CB.Run(setting.breaker, circuitBreaker.View(), others[k..]) == CB.Run(setting.breaker, before, others)
      {
        assert others[k..][1..] == others[k + 1..];
        match others[k].action {
          case CanProceed => var _ := circuitBreaker.MayProceed(others[k].at);
          case RecordSuccess => circuitBreaker.OnSuccess(others[k].at);
          case RecordAuthFailure => circuitBreaker.OnAuthFailure(others[k].at);
          case Reset => circuitBreaker.ResetToClosed(others[k].at);
          case ReadState => var _ := circuitBreaker.GetState(others[k].at);
        }
        assert others[k] == CB.Event(others[k].at, others[k].action);
      }
      assert others[|others|..] == [];
      assert circuitBreaker.View() == CB.Run(setting.breaker, before, others);
      now, turn := setting.turns(turn).at, turn + 1;
    }

    method AskBreaker(call: Call) returns (admitted: bool)
      requires Valid()
      modifies this`log, circuitBreaker
      ensures (View(), admitted) == Ask(setting, call, old(View()))
    {
      admitted := circuitBreaker.MayProceed(now);
      Note(if admitted then Admitted(call) else Refused(call));
    }

    method AcquireAndStart(call: Call)
      requires Valid()
      modifies this`log, this`now, this`turn, circuitBreaker
      ensures View() == Start(setting, call, old(View()))
    {
      Await();
      Note(Token);
      Note(Started(call));
    }

    method ReportOutcome(call: Call, out: Outcome)
      requires Valid()
      modifies this`log, this`apiCallCount, circuitBreaker
      ensures View() == Finish(setting, call, out, old(View()))
    {
      if out.Ok? {
        circuitBreaker.OnSuccess(now);
        apiCallCount := apiCallCount + 1;
        Note(Succeeded(call));
      } else if IsAuthError(out.error) {
        circuitBreaker.OnAuthFailure(now);
        Note(AuthFailed(call));
      }
    }

    /** What the retry loop runs: admission, token, the call, and the report. */
    method AttemptOnce(call: Call) returns (out: Outcome)
      requires Valid()
      modifies this, circuitBreaker
      ensures (out, View()) == Attempt(setting, call, old(View()))
      decreases Depth(call), 1
    {
      var admitted := AskBreaker(call);
      if !admitted {
        return Err(CircuitOpen);
      }
      AcquireAndStart(call);
      out := Execute(call);
      ReportOutcome(call, out);
    }

    method WaitAfter(e: Error, attempt: nat)
      requires Valid()
      modifies this`log, this`now, this`turn, circuitBreaker
      ensures View() == BackOff(setting, e, attempt, old(View()))
    {
      var retryAfterMs := RetryAfter(e);
      if retryAfterMs.Some? {
        Note(Penalized(retryAfterMs.value / 1000.0));
      }
      Note(Slept(if retryAfterMs.Some? then retryAfterMs.value else CalculateDelay(setting, attempt)));
      Await();
    }

    method WithRetry(call: Call) returns (out: Outcome)
      requires Valid()
      modifies this, circuitBreaker
      ensures (out, View()) == Retry(setting, call, 0, old(View()))
      decreases Depth(call), 2
    {
      var attempt: nat := 0;
      ghost var goal := Retry(setting, call, 0, View());
      while attempt <= setting.maxRetries
        invariant Retry(setting, call, attempt, View()) == goal
        invariant attempt <= setting.Attempts()
        decreases setting.Attempts() - attempt
      {
        out := AttemptOnce(call);
        if out.Ok? || attempt == setting.maxRetries || !IsRetryable(out.error) {
          return;
        }
        WaitAfter(out.error, attempt);
        attempt := attempt + 1;
      }
      out := Err(UnknownError);
    }

    method Execute(call: Call) returns (out: Outcome)
      requires Valid()
      modifies this, circuitBreaker
      ensures (out, View()) == Body(setting, call, old(View()))
      decreases Depth(call), 0
    {
      var answer := setting.turns(turn);
      Await();
      if answer.reply.Bad? {
        return Received(answer.reply);
      }
      match call {
        case FetchStatuses(team) =>
          statusCache := statusCache + {team};
          out := Ok;
        case UpdateIssue =>
          out := Ok;
        case UpdateIssueStatus =>
          if answer.team !in statusCache {
            out := WithRetry(FetchStatuses(answer.team));
            if out.Err? {
              return;
            }
          }
          var status := setting.turns(turn).reply;
          Await();
          if status.Bad? {
            return Received(status);
          }
          out := WithRetry(UpdateIssue);
      }
    }
  }
}
