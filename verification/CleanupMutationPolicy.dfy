/** The fail-closed guard around a cleanup mutation: a caller-supplied executor is
    handed a closure over the mutation, and whatever it does with it, the guard decides
    between a refusal, an idempotent replay, a fresh success and an ambiguous failure. */
module CleanupMutationPolicy {
  import opened JsText

  /** What an untrusted callback may hand back. `List` is any array. */
  datatype JsValue =
    | Undefined
    | Null
    | Bool(b: bool)
    | Number(n: real)
    | Text(s: string)
    | List
    | Object(fields: map<string, JsValue>)

  function Property(v: JsValue, name: string): JsValue {
    if v.Object? && name in v.fields then v.fields[name] else Undefined
  }

  predicate Truthy(v: JsValue) {
    match v
    case Undefined => false
    case Null => false
    case Bool(b) => b
    case Number(n) => n != 0.0
    case Text(s) => s != ""
    case List => true
    case Object(_) => true
  }

  /** Why the guard calls the outcome ambiguous. */
  datatype Reason =
    | InvokedAfterSettlement
    | InvokedMoreThanOnce
    | MutationFailed
    | ExecutorFailedAfterEntry
    | MalformedAfterEntry
    | RefusedAfterEntry
    | ReplayAfterEntry
    | ReturnedBeforeCompletion

  datatype Failure =
    | ExecutionError(reason: Reason, cause: Option<Failure>)
    | Foreign(message: string)

  datatype Result =
    | Fresh(value: JsValue)
    | Replay
    | Refused(code: string, detail: JsValue)

  datatype Outcome = Returned(result: Result) | Threw(failure: Failure)

  datatype Settlement = Returns(raw: JsValue) | Throws(failure: Failure)

  const EXECUTOR_FAILED := "mutation_executor_failed"
  const PREDICATE_FAILED := "pre_mutation_predicate_failed"

  function Message(f: Failure): string {
    match f
    case Foreign(m) => m
    case ExecutionError(reason, _) =>
      match reason
      case InvokedAfterSettlement => "cleanup mutation executor invoked mutate after settlement"
      case InvokedMoreThanOnce => "cleanup mutation executor invoked mutate more than once"
      case MutationFailed => "cleanup mutation failed after executor entry"
      case ExecutorFailedAfterEntry => "cleanup mutation executor failed after mutation entry"
      case MalformedAfterEntry => "cleanup mutation executor returned malformed output after mutation entry"
      case RefusedAfterEntry => "cleanup mutation executor refused after mutation entry"
      case ReplayAfterEntry => "cleanup mutation executor reported replay after mutation entry"
      case ReturnedBeforeCompletion => "cleanup mutation executor returned before the mutation completed"
  }

  const MALFORMED_OUTPUT := "cleanup mutation executor returned malformed output"
  const FRESH_WITHOUT_ENTRY := "cleanup mutation executor reported a fresh result without invoking the mutation"

  function ExecutorFailure(detail: string): Result {
    Refused(EXECUTOR_FAILED, Text(detail))
  }

  function ValidateExecutionResult(v: JsValue): (r: Option<Result>)
    ensures r.Some? && r.value.Refused? ==> !Blank(r.value.code)
  {
    if !v.Object? then None
    else if Property(v, "permitted") == Bool(true) then
      if Property(v, "idempotentReplay") == Bool(true) && "value" !in v.fields then Some(Replay)
      else if Property(v, "idempotentReplay") == Bool(false) && "value" in v.fields then Some(Fresh(v.fields["value"]))
      else None
    else
      var code, detail := Property(v, "code"), Property(v, "detail");
      if Property(v, "permitted") == Bool(false) && code.Text? && !Blank(code.s) && (detail.Undefined? || detail.Text?)
      then Some(Refused(code.s, detail))
      else None
  }

  /** A well-behaved executor's object for each result. */
  function Encode(r: Result): JsValue {
    match r
    case Fresh(v) => Object(map["permitted" := Bool(true), "idempotentReplay" := Bool(false), "value" := v])
    case Replay => Object(map["permitted" := Bool(true), "idempotentReplay" := Bool(true)])
    case Refused(c, d) => Object(map["permitted" := Bool(false), "code" := Text(c), "detail" := d])
  }

  /** What an honest executor may report. */
  predicate Honest(r: Result) {
    r.Refused? ==> !Blank(r.code) && (r.detail.Undefined? || r.detail.Text?)
  }

  /** `v` is an object that has what the object for `r` has: the same verdict, and for a refusal the same code and
      detail, for a permission the same replay flag and the same value or likewise none. It may have more. */
  predicate Agrees(v: JsValue, r: Result) {
    var o := Encode(r);
    && v.Object? && Property(v, "permitted") == Property(o, "permitted")
    && (if r.Refused? then Property(v, "code") == Property(o, "code") && Property(v, "detail") == Property(o, "detail")
        else && Property(v, "idempotentReplay") == Property(o, "idempotentReplay")
             && ("value" in v.fields <==> "value" in o.fields) && Property(v, "value") == Property(o, "value"))
  }

  /** Validation accepts a value as a result exactly if an honest executor may report that result and the value agrees
      with it. */
  lemma ValidationLaw(v: JsValue, r: Result)
    ensures ValidateExecutionResult(v) == Some(r) <==> Honest(r) && Agrees(v, r)
  {
    EncodedFields(r);
  }

  lemma EncodedFields(r: Result)
    ensures var o := Encode(r);
            && o.Object? && Property(o, "permitted") == Bool(!r.Refused?)
            && (r.Refused? ==> Property(o, "code") == Text(r.code) && Property(o, "detail") == r.detail)
            && (!r.Refused? ==>
                  Property(o, "idempotentReplay") == Bool(r.Replay?) && ("value" in o.fields <==> r.Fresh?))
            && (r.Fresh? ==> o.fields["value"] == r.value)
  {
    var o := Encode(r);
    assert "permitted" in o.fields;
    match r
    case Fresh(_) => assert "idempotentReplay" in o.fields && "value" in o.fields;
    case Replay => assert "idempotentReplay" in o.fields && "value" !in o.fields;
    case Refused(_, _) => assert "code" in o.fields && "detail" in o.fields;
  }

  /** In particular the executor's own object for a result is accepted as that result or not at all. */
  lemma ValidateInvertsEncode(r: Result)
    ensures ValidateExecutionResult(Encode(r)) == if Honest(r) then Some(r) else None
  {
    EncodedFields(r);
    ValidationLaw(Encode(r), r);
  }

  // ---------------------------------------------------------------------------
  // Executions
  // ---------------------------------------------------------------------------

  /** One thing that happens while the executor runs. `Settle` is the executor's promise
      settling, `Resume` the guard's continuation after its `await`; other callbacks may
      still run between the two. An event that is not possible in a state changes nothing. */
  datatype Event =
    | Invoke
    | MutationResolves(value: JsValue)
    | MutationRejects(cause: Failure)
    | Settle(how: Settlement)
    | Resume

  /** The four flags, and what the surroundings know: whether the raw mutation is
      running, how often it was started, how the executor settled, and the decision. */
  datatype Guard = Guard(
    entered: bool, completed: bool, active: bool, duplicateAttempted: bool,
    running: bool, starts: nat, settlement: Option<Settlement>, outcome: Option<Outcome>)

  const FRESH_GUARD := Guard(false, false, true, false, false, 0, None, None)

  function Decide(entered: bool, completed: bool, duplicateAttempted: bool, s: Settlement): Outcome {
    if duplicateAttempted then
      Threw(ExecutionError(InvokedMoreThanOnce, if s.Throws? then Some(s.failure) else None))
    else match s
      case Throws(e) =>
        if !entered then Returned(ExecutorFailure(Message(e)))
        else if e.ExecutionError? then Threw(e)
        else Threw(ExecutionError(ExecutorFailedAfterEntry, Some(e)))
      case Returns(raw) =>
        var valid := ValidateExecutionResult(raw);
        if valid.None? then
          if entered then Threw(ExecutionError(MalformedAfterEntry, None))
              else Returned(ExecutorFailure(MALFORMED_OUTPUT))
        else if valid.value.Refused? then
          if entered then Threw(ExecutionError(RefusedAfterEntry, None)) else Returned(valid.value)
        else if valid.value.Replay? then
          if entered then Threw(ExecutionError(ReplayAfterEntry, None)) else Returned(valid.value)
        else if !entered then Returned(ExecutorFailure(FRESH_WITHOUT_ENTRY))
        else if !completed then Threw(ExecutionError(ReturnedBeforeCompletion, None))
        else Returned(valid.value)
  }

  function Step(g: Guard, e: Event): Guard {
    match e
    case Invoke =>
      if !g.active then g
      else if g.entered then g.(duplicateAttempted := true)
      else g.(entered := true, running := true, starts := g.starts + 1)
    case MutationResolves(_) => if g.running then g.(completed := true, running := false) else g
    case MutationRejects(_) => g.(running := false)
    case Settle(how) => if g.settlement.None? then g.(settlement := Some(how)) else g
    case Resume =>
      if g.settlement.Some? && g.active
      then g.(active := false, outcome := Some(Decide(g.entered, g.completed, g.duplicateAttempted,
          g.settlement.value)))
      else g
  }

  function Run(g: Guard, events: seq<Event>): Guard
    decreases |events|
  {
    if events == [] then g else Run(Step(g, events[0]), events[1..])
  }

  lemma {:induction false} RunAppend(g: Guard, a: seq<Event>, b: seq<Event>)
    ensures Run(g, a + b) == Run(Run(g, a), b)
    decreases |a|
  {
    if a == [] {
      assert a + b == b;
    } else {
      assert (a + b)[0] == a[0] && (a + b)[1..] == a[1..] + b;
      RunAppend(Step(g, a[0]), a[1..], b);
    }
  }

  // ---------------------------------------------------------------------------
  // Reading a trace without the flags
  // ---------------------------------------------------------------------------

  function Invocations(events: seq<Event>): nat {
    if events == [] then 0
    else Invocations(events[..|events| - 1]) + (if events[|events| - 1].Invoke? then 1 else 0)
  }

  /** The first way in which the executor settled. */
  function FirstSettlement(events: seq<Event>): Option<Settlement> {
    if events == [] then None
    else
      var before := FirstSettlement(events[..|events| - 1]);
      if before.None? && events[|events| - 1].Settle? then Some(events[|events| - 1].how) else before
  }

  /** What became of the mutation: it runs from the first invocation to the first report after it. */
  datatype Fate = NotStarted | Unfinished | Succeeded | Failed

  function FateOnceStarted(events: seq<Event>): (f: Fate)
    ensures f != NotStarted
    decreases |events|
  {
    if events == [] then Unfinished
    else if events[0].MutationResolves? then Succeeded
    else if events[0].MutationRejects? then Failed
    else FateOnceStarted(events[1..])
  }

  function MutationFate(events: seq<Event>): Fate
    decreases |events|
  {
    if events == [] then NotStarted
    else if events[0].Invoke? then FateOnceStarted(events[1..])
    else MutationFate(events[1..])
  }

  /** No continuation of the guard has run yet. */
  predicate Undecided(events: seq<Event>) {
    forall r | 0 <= r < |events| :: events[r].Resume? ==> FirstSettlement(events[..r]).None?
  }

  lemma {:induction false} FateOnceStartedExtends(init: seq<Event>, last: Event)
    ensures FateOnceStarted(init + [last]) ==
            if FateOnceStarted(init) != Unfinished then FateOnceStarted(init)
            else if last.MutationResolves? then Succeeded
            else if last.MutationRejects? then Failed else Unfinished
    decreases |init|
  {
    var all := init + [last];
    if init == [] {
      assert all[1..] == [];
    } else {
      assert all[0] == init[0] && all[1..] == init[1..] + [last];
      FateOnceStartedExtends(init[1..], last);
    }
  }

  lemma {:induction false} FateExtends(init: seq<Event>, last: Event)
    ensures MutationFate(init + [last]) ==
            match MutationFate(init)
            case NotStarted => if last.Invoke? then Unfinished else NotStarted
            case Unfinished => if last.MutationResolves? then Succeeded else if last.MutationRejects? then Failed
                else Unfinished
            case fate => fate
    decreases |init|
  {
    var all := init + [last];
    if init == [] {
      assert all[1..] == [];
    } else {
      assert all[0] == init[0] && all[1..] == init[1..] + [last];
      if init[0].Invoke? {
        FateOnceStartedExtends(init[1..], last);
      } else {
        FateExtends(init[1..], last);
      }
    }
  }

  /** Until the guard decides, its flags are exactly what the trace says. */
  lemma {:induction false} FlagsTellTheTrace(events: seq<Event>)
    requires Undecided(events)
    ensures var g := Run(FRESH_GUARD, events);
            && g.active && g.outcome.None?
            && g.entered == (Invocations(events) >= 1)
            && g.duplicateAttempted == (Invocations(events) >= 2)
            && g.starts == (if Invocations(events) >= 1 then 1 else 0)
            && g.settlement == FirstSettlement(events)
            && g.entered == (MutationFate(events) != NotStarted)
            && g.completed == (MutationFate(events) == Succeeded)
            && g.running == (MutationFate(events) == Unfinished)
    decreases |events|
  {
    if events != [] {
      var init, last := events[..|events| - 1], events[|events| - 1];
      assert events == init + [last];
      assert Undecided(init) by {
        forall r | 0 <= r < |init| ensures init[r].Resume? ==> FirstSettlement(init[..r]).None? {
          assert init[..r] == events[..r] && events[r] == init[r];
        }
      }
      FlagsTellTheTrace(init);
      RunAppend(FRESH_GUARD, init, [last]);
      FateExtends(init, last);
      assert last.Resume? ==> FirstSettlement(init).None?;
    }
  }

  /** Once it has decided, the guard never starts the mutation and never changes its mind. */
  lemma {:induction false} DecisionIsFinal(g: Guard, after: seq<Event>)
    requires !g.active
    ensures var h := Run(g, after); !h.active && h.outcome == g.outcome && h.starts == g.starts
    decreases |after|
  {
    if after != [] {
      DecisionIsFinal(Step(g, after[0]), after[1..]);
    }
  }

  // ---------------------------------------------------------------------------
  // What the guard promises, for every executor
  // ---------------------------------------------------------------------------

  /** For a trace whose first effective continuation comes between `before` and `after`,
      the outcome as a function of the trace alone. */
  lemma {:induction false} DecidedOutcome(before: seq<Event>, after: seq<Event>)
    requires Undecided(before) && FirstSettlement(before).Some?
    ensures var g := Run(FRESH_GUARD, before + [Resume] + after);
            && g.outcome == Some(Decide(Invocations(before) >= 1, MutationFate(before) == Succeeded,
                                        Invocations(before) >= 2, FirstSettlement(before).value))
            && g.starts == (if Invocations(before) >= 1 then 1 else 0)
            && !g.active
  {
    FlagsTellTheTrace(before);
    RunAppend(FRESH_GUARD, before + [Resume], after);
    RunAppend(FRESH_GUARD, before, [Resume]);
    DecisionIsFinal(Run(FRESH_GUARD, before + [Resume]), after);
  }

  /** A fresh success is returned exactly when the executor settled with a valid fresh result,
      the closure was invoked once and only once, and the mutation had succeeded by then. */
  lemma FreshSuccessLaw(before: seq<Event>, after: seq<Event>, value: JsValue)
    requires Undecided(before) && FirstSettlement(before).Some?
    ensures Run(FRESH_GUARD, before + [Resume] + after).outcome == Some(Returned(Fresh(value)))
            <==> && FirstSettlement(before).value.Returns?
                 && ValidateExecutionResult(FirstSettlement(before).value.raw) == Some(Fresh(value))
                 && Invocations(before) == 1
                 && MutationFate(before) == Succeeded
  {
    DecidedOutcome(before, after);
    FlagsTellTheTrace(before);
  }

  /** Refusals and replays are returned exactly when the closure was never invoked, and then
      the mutation never starts, not even later; once invoked, anything else is a thrown execution error. */
  lemma FailClosed(before: seq<Event>, after: seq<Event>)
    requires Undecided(before) && FirstSettlement(before).Some?
    ensures var g := Run(FRESH_GUARD, before + [Resume] + after);
            && g.outcome.Some?
            && (g.starts == 0 <==> g.outcome.value.Returned? && !g.outcome.value.result.Fresh?)
            && (g.starts == 1 <==> g.outcome.value.Threw? || g.outcome.value.result.Fresh?)
            && (g.outcome.value.Threw? ==> g.outcome.value.failure.ExecutionError?)
            && (Invocations(before) == 0 <==> g.starts == 0)
  {
    DecidedOutcome(before, after);
  }

  /** Without an invocation, what an executor may obtain is its own valid refusal or replay,
      word for word, or else the guard's refusal, which says what went wrong. */
  lemma UninvokedResult(before: seq<Event>, after: seq<Event>)
    requires Undecided(before) && FirstSettlement(before).Some? && Invocations(before) == 0
    ensures var out := Run(FRESH_GUARD, before + [Resume] + after).outcome;
            var how := FirstSettlement(before).value;
            && out.Some? && out.value.Returned?
            && (if how.Returns? && ValidateExecutionResult(how.raw) == Some(Replay) then out.value.result == Replay
                else if how.Returns? && ValidateExecutionResult(how.raw).Some?
                    && ValidateExecutionResult(how.raw).value.Refused?
                then Some(out.value.result) == ValidateExecutionResult(how.raw)
                else out.value.result == Refused("mutation_executor_failed", Text(
                         if how.Throws? then Message(how.failure)
                         else if ValidateExecutionResult(how.raw).None?
                         then "cleanup mutation executor returned malformed output"
                         else "cleanup mutation executor reported a fresh result without invoking the mutation")))
  {
    DecidedOutcome(before, after);
  }

  /** Which error an executor obtains that invoked the closure and did not reach a fresh success: a second
      invocation comes first, then the executor's own failure, then what is wrong with the value it returned, and
      last a mutation that had not succeeded when it returned a fresh result. */
  lemma AmbiguousReason(before: seq<Event>, after: seq<Event>)
    requires Undecided(before) && FirstSettlement(before).Some? && Invocations(before) >= 1
    ensures var out := Run(FRESH_GUARD, before + [Resume] + after).outcome;
            var how := FirstSettlement(before).value;
            var cause := if how.Throws? then Some(how.failure) else None;
            && out.Some?
            && (Invocations(before) >= 2 ==> out.value == Threw(ExecutionError(InvokedMoreThanOnce, cause)))
            && (Invocations(before) == 1 && how.Throws? ==>
                  out.value == Threw(if how.failure.ExecutionError? then how.failure
                                     else ExecutionError(ExecutorFailedAfterEntry, cause)))
            && (Invocations(before) == 1 && how.Returns? ==>
                  match ValidateExecutionResult(how.raw)
                  case None => out.value == Threw(ExecutionError(MalformedAfterEntry, None))
                  case Some(Refused(_, _)) => out.value == Threw(ExecutionError(RefusedAfterEntry, None))
                  case Some(Replay) => out.value == Threw(ExecutionError(ReplayAfterEntry, None))
                  case Some(Fresh(_)) => MutationFate(before) != Succeeded ==>
                      out.value == Threw(ExecutionError(ReturnedBeforeCompletion, None)))
  {
    DecidedOutcome(before, after);
  }

  /** Every trace whatever starts the raw mutation at most once, and returns nothing
      before the executor has settled and the guard has resumed. */
  lemma {:induction false} AtMostOneStart(g: Guard, events: seq<Event>)
    requires g.starts == (if g.entered then 1 else 0)
    requires g.duplicateAttempted ==> g.entered
    ensures var h := Run(g, events); h.starts == (if h.entered then 1 else 0)
    ensures g.starts <= Run(g, events).starts <= 1
    decreases |events|
  {
    if events != [] {
      AtMostOneStart(Step(g, events[0]), events[1..]);
    }
  }

  lemma TraceExtends(init: seq<Event>, last: Event)
    ensures Invocations(init + [last]) == Invocations(init) + (if last.Invoke? then 1 else 0)
    ensures FirstSettlement(init + [last]) ==
            if FirstSettlement(init).None? && last.Settle? then Some(last.how) else FirstSettlement(init)
    ensures MutationFate(init).NotStarted? ==> MutationFate(init + [last]) == if last.Invoke? then Unfinished
        else NotStarted
    ensures MutationFate(init).Unfinished? && last.MutationResolves? ==> MutationFate(init + [last]) == Succeeded
    ensures MutationFate(init).Succeeded? ==> MutationFate(init + [last]) == Succeeded
  {
    assert (init + [last])[..|init|] == init;
    FateExtends(init, last);
  }

  /** The value of a fresh success is the executor's word: after the mutation has run once and succeeded,
      with whatever value, any claimed value is passed on. */
  lemma FreshValueIsTheExecutorsClaim(ran: seq<Event>, claimed: JsValue, after: seq<Event>)
    requires Undecided(ran) && FirstSettlement(ran).None?
    requires Invocations(ran) == 1 && MutationFate(ran) == Succeeded
    ensures Run(FRESH_GUARD, ran + [Settle(Returns(Encode(Fresh(claimed))))] + [Resume] + after).outcome
            == Some(Returned(Fresh(claimed)))
  {
    var settle := Settle(Returns(Encode(Fresh(claimed))));
    TraceExtends(ran, settle);
    ValidateInvertsEncode(Fresh(claimed));
    assert Undecided(ran + [settle]) by {
      forall r | 0 <= r < |ran + [settle]| && (ran + [settle])[r].Resume?
        ensures FirstSettlement((ran + [settle])[..r]).None?
      {
        assert (ran + [settle])[..r] == ran[..r] && ran[r].Resume?;
      }
    }
    FreshSuccessLaw(ran + [settle], after, claimed);
  }

  // ---------------------------------------------------------------------------
  // The fallback: a policy consulted before the mutation
  // ---------------------------------------------------------------------------

  /** `beforeMutation`: not configured, failing with a message, or answering with any value. */
  datatype Policy = Absent | Fails(message: string) | Answers(decision: JsValue)

  /** `None` is permission; a property access that JavaScript rejects lands in the catch block. */
  function EvaluatePolicy(p: Policy): Option<Result> {
    match p
    case Absent => None
    case Fails(m) => Some(Refused(PREDICATE_FAILED, Text(m)))
    case Answers(d) =>
      if Truthy(Property(d, "permitted")) then None
      else if !Property(d, "code").Text? then Some(Refused(PREDICATE_FAILED, Text("TypeError")))
      else if Blank(Property(d, "code").s) then
        Some(Refused(PREDICATE_FAILED, Text("pre-mutation predicate returned an empty refusal code")))
      else Some(Refused(Property(d, "code").s, Property(d, "detail")))
  }

  datatype MutationReply = Resolves(value: JsValue) | Rejects(failure: Failure)

  // ---------------------------------------------------------------------------
  // The guard as the object it is: four flags flipped by callbacks
  // ---------------------------------------------------------------------------

  class GuardedMutation {
    var entered: bool
    var completed: bool
    var active: bool
    var duplicateAttempted: bool
    // What the surroundings know.
    var running: bool
    var starts: nat
    var settlement: Option<Settlement>
    var outcome: Option<Outcome>

    ghost function View(): Guard
      reads this
    {
      Guard(entered, completed, active, duplicateAttempted, running, starts, settlement, outcome)
    }

    constructor ()
      ensures View() == FRESH_GUARD
    {
      entered, completed, active, duplicateAttempted := false, false, true, false;
      running, starts, settlement, outcome := false, 0, None, None;
    }

    /** The closure handed to the executor, up to the start of the raw mutation. */
    method Invoke() returns (rejection: Option<Failure>)
      modifies this
      ensures View() == Step(old(View()), Event.Invoke)
      ensures rejection == if !old(active) then Some(ExecutionError(InvokedAfterSettlement, None))
          else if old(entered) then Some(ExecutionError(InvokedMoreThanOnce, None)) else None
      ensures starts == if rejection.None? then old(starts) + 1 else old(starts)
    {
      if !active {
        return Some(ExecutionError(InvokedAfterSettlement, None));
      }
      if entered {
        duplicateAttempted := true;
        return Some(ExecutionError(InvokedMoreThanOnce, None));
      }
      entered := true;
      running, starts := true, starts + 1;
      rejection := None;
    }

    /** The raw mutation's promise settles, inside the closure's own `try`. */
    method MutationSettles(reply: MutationReply) returns (seen: MutationReply)
      requires running
      modifies this
      ensures View() == Step(old(View()), if reply.Resolves? then MutationResolves(reply.value)
          else MutationRejects(reply.failure))
      ensures seen == if reply.Resolves? then reply
                      else Rejects(ExecutionError(MutationFailed, Some(reply.failure)))
    {
      running := false;
      if reply.Resolves? {
        completed := true;
        return reply;
      }
      seen := Rejects(ExecutionError(MutationFailed, Some(reply.failure)));
    }

    method Settled(how: Settlement)
      modifies this`settlement
      ensures View() == Step(old(View()), Settle(how))
    {
      if settlement.None? { settlement := Some(how); }
    }

    /** The continuation after awaiting the executor: deactivate, then decide in one go. */
    method Conclude()
      requires active && settlement.Some?
      modifies this
      ensures View() == Step(old(View()), Resume)
    {
      active := false;
      var decision := Judge(settlement.value);
      outcome := Some(decision);
    }

    method Judge(how: Settlement) returns (decision: Outcome)
      ensures decision == Decide(entered, completed, duplicateAttempted, how)
    {
      if duplicateAttempted {
        return Threw(ExecutionError(InvokedMoreThanOnce, if how.Throws? then Some(how.failure) else None));
      }
      if how.Throws? {
        if entered {
          if how.failure.ExecutionError? {
            return Threw(how.failure);
          }
          return Threw(ExecutionError(ExecutorFailedAfterEntry, Some(how.failure)));
        }
        return Returned(ExecutorFailure(Message(how.failure)));
      }
      var result := ValidateExecutionResult(how.raw);
      if result.None? {
        if entered {
          return Threw(ExecutionError(MalformedAfterEntry, None));
        }
        return Returned(ExecutorFailure(MALFORMED_OUTPUT));
      }
      if result.value.Refused? {
        if entered {
          return Threw(ExecutionError(RefusedAfterEntry, None));
        }
        return Returned(result.value);
      }
      if result.value.Replay? {
        if entered {
          return Threw(ExecutionError(ReplayAfterEntry, None));
        }
        return Returned(result.value);
      }
      if !entered {
        return Returned(ExecutorFailure(FRESH_WITHOUT_ENTRY));
      }
      if !completed {
        return Threw(ExecutionError(ReturnedBeforeCompletion, None));
      }
      decision := Returned(result.value);
    }
  }

  /** `executeCleanupMutation` around an executor that behaves as `trace` says. */
  method ExecuteCleanupMutation(trace: seq<Event>) returns (decision: Option<Outcome>, starts: nat)
    ensures decision == Run(FRESH_GUARD, trace).outcome
    ensures starts == Run(FRESH_GUARD, trace).starts <= 1
    ensures decision.Some? && decision.value.Returned? && !decision.value.result.Fresh? ==> starts == 0
  {
    var guard := new GuardedMutation();
    for k := 0 to |trace|
      invariant Run(guard.View(), trace[k..]) == Run(FRESH_GUARD, trace)
      invariant guard.outcome.Some? <==> !guard.active
      invariant guard.starts == (if guard.entered then 1 else 0)
      invariant guard.duplicateAttempted ==> guard.entered
      invariant guard.outcome.Some? && guard.outcome.value.Returned? && !guard.outcome.value.result.Fresh? ==>
          guard.starts == 0
    {
      assert trace[k..][1..] == trace[k + 1..];
      match trace[k] {
        case Invoke => var _ := guard.Invoke();
        case MutationResolves(v) => if guard.running { var _ := guard.MutationSettles(Resolves(v)); }
        case MutationRejects(e) => if guard.running { var _ := guard.MutationSettles(Rejects(e)); }
        case Settle(how) => guard.Settled(how);
        case Resume => if guard.active && guard.settlement.Some? { guard.Conclude(); }
      }
    }
    assert trace[|trace|..] == [];
    decision, starts := guard.outcome, guard.starts;
  }

  /** The path taken when no executor is configured: the mutation starts exactly when there is no policy or it
      answers with an object whose `permitted` is truthy. A refusal with a code that is not blank is passed on
      with its detail; any other answer, or a failure, becomes a refusal of the guard's own. */
  method ExecuteUnderPolicy(policy: Policy, reply: MutationReply) returns (outcome: Outcome, starts: nat)
    ensures starts == if policy.Absent? || (policy.Answers? && Truthy(Property(policy.decision, "permitted"))) then 1
        else 0
    ensures starts == 1 ==> outcome == if reply.Resolves? then Returned(Fresh(reply.value)) else Threw(reply.failure)
    ensures starts == 0 ==> outcome.Returned? && outcome.result.Refused? && !Blank(outcome.result.code)
    ensures starts == 0 && policy.Fails? ==>
        outcome == Returned(Refused("pre_mutation_predicate_failed", Text(policy.message)))
    ensures starts == 0 && policy.Answers? ==>
        var code := Property(policy.decision, "code");
        if code.Text? && !Blank(code.s)
        then outcome == Returned(Refused(code.s, Property(policy.decision, "detail")))
        else outcome.result.code == "pre_mutation_predicate_failed" && outcome.result.detail.Text?
             && (code.Text? ==>
                   outcome.result.detail == Text("pre-mutation predicate returned an empty refusal code"))
  {
    starts := 0;
    var refusal := EvaluatePolicy(policy);
    if refusal.Some? {
      assert PREDICATE_FAILED[0] == 'p';
      return Returned(refusal.value), 0;
    }
    starts := 1;
    outcome := if reply.Resolves? then Returned(Fresh(reply.value)) else Threw(reply.failure);
  }
}
