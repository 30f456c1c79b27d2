/** Streaming the status of an agent session: the polling event source and the relay that turns its events
    into task events and decides when the stream ends. */
module SseStream {
  import opened JsText

  /** A session's status; `Unlisted` is whatever else the session store may hold. */
  datatype SessionStatus =
    | Pending | Claimed | Running | Finalizing | Completed | Failed | Stopped | TimedOut
    | Unlisted(raw: string)

  datatype TaskStatus = Submitted | Working | InputRequired | TaskCompleted | TaskFailed | Canceled

  datatype SessionEvent =
    | StatusEvent(status: SessionStatus, message: Option<string>)
    | ArtifactEvent(name: string, content: string, mimeType: Option<string>)
    | OtherEvent

  datatype Part = TextPart(text: string) | FilePart(name: string, mimeType: string, bytes: string)

  datatype TaskEvent =
    | StatusUpdate(taskId: string, status: TaskStatus, message: Option<string>, final: bool)
    | ArtifactUpdate(taskId: string, name: string, part: Part)

  /** One answer of the session store: no such session, its status, or an error. */
  datatype Poll = Missing | Saw(status: SessionStatus) | Fails

  /** How a source of events stands after the events it has delivered. */
  datatype SourceEnd = Finished | Threw | StillOpen

  datatype Response = NotFound | Streaming(sent: seq<TaskEvent>, closed: bool)

  // ---------------------------------------------------------------------------
  // Translating one event
  // ---------------------------------------------------------------------------

  function MapStatus(s: SessionStatus): TaskStatus {
    match s
    case Pending => Submitted
    case Claimed => Submitted
    case Running => Working
    case Finalizing => Working
    case Completed => TaskCompleted
    case Failed => TaskFailed
    case TimedOut => TaskFailed
    case Stopped => Canceled
    case Unlisted(_) => TaskFailed
  }

  predicate IsTerminal(t: TaskStatus) {
    t == TaskCompleted || t == TaskFailed || t == Canceled
  }

  function CreateStatusUpdate(taskId: string, s: SessionStatus, message: Option<string>): TaskEvent {
    StatusUpdate(taskId, MapStatus(s), message, IsTerminal(MapStatus(s)))
  }

  function CreateArtifactUpdate(taskId: string, name: string, content: string, mimeType: Option<string>): TaskEvent {
    ArtifactUpdate(taskId, name,
                   if mimeType.Some? && mimeType.value != "" then FilePart(name, mimeType.value, content)
                   else TextPart(content))
  }

  /** The task event for a session event; an empty message counts as none. */
  function Translate(taskId: string, e: SessionEvent): TaskEvent
    requires !e.OtherEvent?
  {
    match e
    case StatusEvent(s, m) => CreateStatusUpdate(taskId, s, if m == Some("") then None else m)
    case ArtifactEvent(n, c, t) => CreateArtifactUpdate(taskId, n, c, t)
  }

  predicate IsFinal(e: TaskEvent) {
    e.StatusUpdate? && e.final
  }

  function Failure(taskId: string): TaskEvent {
    CreateStatusUpdate(taskId, Failed, None)
  }

  /** What a client is told of each session status, and that exactly the statuses past `Finalizing`, unlisted ones
      included, are final. */
  lemma StatusTable(taskId: string, s: SessionStatus, message: Option<string>)
    ensures var e := Translate(taskId, StatusEvent(s, message));
            && e.StatusUpdate? && e.taskId == taskId
            && e.message == (if message == Some("") then None else message)
            && (e.status == Submitted <==> s == Pending || s == Claimed)
            && (e.status == Working <==> s == Running || s == Finalizing)
            && (e.status == TaskCompleted <==> s == Completed)
            && (e.status == TaskFailed <==> s == Failed || s == TimedOut || s.Unlisted?)
            && (e.status == Canceled <==> s == Stopped)
            && (e.final <==> IsFinal(e)) && (e.final <==> Over(s)) && (Ends(s) <==> Over(s))
    ensures Failure(taskId) == StatusUpdate(taskId, TaskFailed, None, true)
  {
  }

  /** The session is neither waiting nor at work. */
  predicate Over(s: SessionStatus) {
    s != Pending && s != Claimed && s != Running && s != Finalizing
  }

  /** An artifact is a file exactly if it has a MIME type that is not empty, and text otherwise. */
  lemma ArtifactTable(taskId: string, name: string, content: string, mimeType: Option<string>)
    ensures var e := Translate(taskId, ArtifactEvent(name, content, mimeType));
            && e.ArtifactUpdate? && e.taskId == taskId && e.name == name && !IsFinal(e)
            && (e.part.FilePart? <==> mimeType.Some? && mimeType.value != "")
            && (e.part.FilePart? ==> e.part == FilePart(name, mimeType.value, content))
            && (e.part.TextPart? ==> e.part == TextPart(content))
  {
  }

  // ---------------------------------------------------------------------------
  // What a stream should contain
  // ---------------------------------------------------------------------------

  /** All the known events, translated, in order. */
  function Translated(taskId: string, events: seq<SessionEvent>): seq<TaskEvent> {
    if events == [] then []
    else
      var e := events[|events| - 1];
      Translated(taskId, events[..|events| - 1]) + if e.OtherEvent? then [] else [Translate(taskId, e)]
  }

  predicate AnyFinal(s: seq<TaskEvent>) {
    exists e | e in s :: IsFinal(e)
  }

  /** The events through the first final one, all of them when there is none. */
  function ThroughFinal(s: seq<TaskEvent>): seq<TaskEvent> {
    if s == [] then [] else if IsFinal(s[0]) then [s[0]] else [s[0]] + ThroughFinal(s[1..])
  }

  /** The whole stream for a source of events. */
  function Relayed(taskId: string, events: seq<SessionEvent>, end: SourceEnd): seq<TaskEvent> {
    var all := Translated(taskId, events);
    ThroughFinal(all) + if end == Threw && !AnyFinal(all) then [Failure(taskId)] else []
  }

  lemma {:induction false} ThroughFinalAppend(a: seq<TaskEvent>, b: seq<TaskEvent>)
    ensures ThroughFinal(a + b) == if AnyFinal(a) then ThroughFinal(a) else a + ThroughFinal(b)
    ensures AnyFinal(a + b) == (AnyFinal(a) || AnyFinal(b))
    decreases |a|
  {
    if a == [] {
      assert a + b == b;
    } else {
      ThroughFinalAppend(a[1..], b);
      assert (a + b)[1..] == a[1..] + b;
      assert a == [a[0]] + a[1..];
    }
  }

  /** Cutting leaves a prefix whose only final event, if there is one at all, is its last. */
  lemma {:induction false} ThroughFinalCuts(s: seq<TaskEvent>)
    ensures ThroughFinal(s) <= s
    ensures forall i | 0 <= i < |ThroughFinal(s)| - 1 :: !IsFinal(ThroughFinal(s)[i])
    ensures AnyFinal(s) ==> ThroughFinal(s) != [] && IsFinal(ThroughFinal(s)[|ThroughFinal(s)| - 1])
    ensures !AnyFinal(s) ==> ThroughFinal(s) == s
  {
    hide IsFinal;
    if s != [] {
      var rest := ThroughFinal(s[1..]);
      ThroughFinalCuts(s[1..]);
      assert AnyFinal(s) == (IsFinal(s[0]) || AnyFinal(s[1..])) by { assert s == [s[0]] + s[1..]; }
      if !IsFinal(s[0]) {
        var cut := [s[0]] + rest;
        assert ThroughFinal(s) == cut;
        assert forall i | 0 < i < |cut| :: cut[i] == rest[i - 1];
      }
    }
  }

  lemma FinalIsKept(s: seq<TaskEvent>)
    ensures AnyFinal(ThroughFinal(s)) == AnyFinal(s)
  {
    hide IsFinal, ThroughFinal;
    ThroughFinalCuts(s);
    var cut := ThroughFinal(s);
    if AnyFinal(s) {
      assert cut[|cut| - 1] in cut;
    }
  }

  /** For any source of events, at most one event sent is final and it is the last one sent: when a terminal
      status arrived, or the source failed before one did, and in no other case. */
  lemma AtMostOneFinal(taskId: string, events: seq<SessionEvent>, end: SourceEnd)
    ensures var sent := Relayed(taskId, events, end);
            && (forall i | 0 <= i < |sent| - 1 :: !IsFinal(sent[i]))
            && ((sent != [] && IsFinal(sent[|sent| - 1])) <==> (AnyFinal(Translated(taskId, events)) || end == Threw))
            && (AnyFinal(sent) <==> sent != [] && IsFinal(sent[|sent| - 1]))
  {
    ThroughFinalCuts(Translated(taskId, events));
    FinalIsKept(Translated(taskId, events));
  }

  // ---------------------------------------------------------------------------
  // The relay loop
  // ---------------------------------------------------------------------------

  lemma FinalCloses(taskId: string, events: seq<SessionEvent>, i: nat, end: SourceEnd)
    requires i < |events| && !events[i].OtherEvent?
    requires !AnyFinal(Translated(taskId, events[..i])) && IsFinal(Translate(taskId, events[i]))
    ensures Relayed(taskId, events, end) == Translated(taskId, events[..i]) + [Translate(taskId, events[i])]
    ensures AnyFinal(Relayed(taskId, events, end))
  {
    hide MapStatus, IsTerminal, CreateStatusUpdate, CreateArtifactUpdate, Translate, IsFinal, Failure;
    var before := Translated(taskId, events[..i]);
    var e := Translate(taskId, events[i]);
    var all := Translated(taskId, events);
    TranslatedPrefix(taskId, events, i + 1);
    assert events[..i + 1][..i] == events[..i];
    assert Translated(taskId, events[..i + 1]) == before + [e];
    var rest := all[|before| + 1..];
    assert all == before + ([e] + rest);
    ThroughFinalAppend(before, [e] + rest);
    assert ([e] + rest)[0] == e;
    assert e in all;
  }

  /** The event loop of the stream: relays events until a final one, adds a final failure when the source
      throws, and closes the stream in every case except that the source has more to say. */
  method Relay(taskId: string, events: seq<SessionEvent>, end: SourceEnd) returns (sent: seq<TaskEvent>, closed: bool)
    ensures sent == Relayed(taskId, events, end)
    ensures closed <==> AnyFinal(sent) || end == Finished
  {
    sent, closed := [], false;
    var i := 0;
    while i < |events|
      invariant 0 <= i <= |events|
      invariant sent == Translated(taskId, events[..i])
      invariant !AnyFinal(sent) && !closed
    {
      assert events[..i + 1][..i] == events[..i];
      if !events[i].OtherEvent? {
        var e := Translate(taskId, events[i]);
        sent := sent + [e];
        if IsFinal(e) {
          FinalCloses(taskId, events, i, end);
          return sent, true;
        }
      }
      i := i + 1;
    }
    assert events[..i] == events;
    ThroughFinalCuts(sent);
    if end == Threw {
      sent := sent + [Failure(taskId)];
      assert Failure(taskId) in sent;
      closed := true;
    } else {
      closed := end == Finished;
    }
  }

  lemma {:induction false} TranslatedPrefix(taskId: string, events: seq<SessionEvent>, n: nat)
    requires n <= |events|
    ensures Translated(taskId, events[..n]) <= Translated(taskId, events)
    decreases |events| - n
  {
    if n == |events| {
      assert events[..n] == events;
    } else {
      TranslatedPrefix(taskId, events, n + 1);
      assert events[..n + 1][..n] == events[..n];
    }
  }

  // ---------------------------------------------------------------------------
  // The polling source
  // ---------------------------------------------------------------------------

  /** The statuses polled before the store first fails. */
  function Seen(history: seq<Poll>): seq<SessionStatus> {
    if history == [] || history[0].Fails? then []
    else (if history[0].Saw? then [history[0].status] else []) + Seen(history[1..])
  }

  /** `s` without each element that repeats its predecessor in `s`. */
  function Changes(s: seq<SessionStatus>): seq<SessionStatus> {
    var n := |s|;
    if n == 0 then []
    else Changes(s[..n - 1]) + if n > 1 && s[n - 1] == s[n - 2] then [] else [s[n - 1]]
  }

  function StatusEvents(s: seq<SessionStatus>): seq<SessionEvent> {
    seq(|s|, i requires 0 <= i < |s| => StatusEvent(s[i], None))
  }

  predicate Ends(s: SessionStatus) {
    IsTerminal(MapStatus(s))
  }

  predicate AnyEnds(s: seq<SessionStatus>) {
    exists x | x in s :: Ends(x)
  }

  /** The statuses through the first terminal one. */
  function ThroughEnd(s: seq<SessionStatus>): seq<SessionStatus> {
    if s == [] then [] else if Ends(s[0]) then [s[0]] else [s[0]] + ThroughEnd(s[1..])
  }

  /** Where the source stands after a history of polls. */
  function EndOf(history: seq<Poll>): SourceEnd {
    if AnyEnds(Seen(history)) then Finished
    else if Fails in history then Threw
    else StillOpen
  }

  lemma {:induction false} SeenAppend(h: seq<Poll>, more: seq<Poll>)
    ensures Seen(h + more) == if Fails in h then Seen(h) else Seen(h) + Seen(more)
  {
    if h == [] {
      assert h + more == more;
    } else {
      SeenAppend(h[1..], more);
      assert (h + more)[0] == h[0] && (h + more)[1..] == h[1..] + more;
      assert (Fails in h) == (h[0] == Fails || Fails in h[1..]) by { assert h == [h[0]] + h[1..]; }
      var head := if h[0].Saw? then [h[0].status] else [];
      if !h[0].Fails? {
        assert Seen(h + more) == head + Seen(h[1..] + more);
        assert head + (Seen(h[1..]) + Seen(more)) == (head + Seen(h[1..])) + Seen(more);
      }
    }
  }

  lemma NothingSeen()
    ensures Seen([]) == [] && Changes([]) == [] && !AnyEnds([])
  {
  }

  /** The first `i` polls did not fail, and are what was seen. */
  ghost predicate Polled(history: seq<Poll>, i: nat, seen: seq<SessionStatus>) {
    i <= |history| && Fails !in history[..i] && seen == Seen(history[..i])
  }

  /** What was announced for the statuses seen, none of which ended the session. */
  ghost predicate Announced(seen: seq<SessionStatus>, events: seq<SessionEvent>, lastStatus: Option<SessionStatus>) {
    && !AnyEnds(seen) && !AnyEnds(Changes(seen)) && events == StatusEvents(Changes(seen))
    && lastStatus == if seen == [] then None else Some(seen[|seen| - 1])
  }

  lemma NothingPolled(history: seq<Poll>)
    ensures Polled(history, 0, []) && Announced([], [], None)
  {
    NothingSeen();
    assert history[..0] == [];
  }

  lemma PollSees(history: seq<Poll>, i: nat, seen: seq<SessionStatus>)
    requires i < |history| && Polled(history, i, seen) && !history[i].Fails?
    ensures Polled(history, i + 1, if history[i].Saw? then seen + [history[i].status] else seen)
  {
    hide Seen;
    OnePoll(history, i);
  }

  lemma StatusAnnounced(seen: seq<SessionStatus>, events: seq<SessionEvent>, lastStatus: Option<SessionStatus>,
      x: SessionStatus)
    requires Announced(seen, events, lastStatus)
    ensures Some(x) == lastStatus ==> Announced(seen + [x], events, lastStatus)
    ensures Some(x) != lastStatus && !Ends(x) ==> Announced(seen + [x], events + [StatusEvent(x, None)], Some(x))
  {
    hide Changes, AnyEnds, StatusEvents, Ends;
    OneStatus(seen, x);
    OneMoreEnds(seen, x);
    OneMoreEnds(Changes(seen), x);
    OneMoreEvent(Changes(seen), x);
    assert Changes(seen) + [] == Changes(seen);
    if Some(x) == lastStatus { EndsIn(seen, x); }
  }

  lemma EndsIn(seen: seq<SessionStatus>, x: SessionStatus)
    requires x in seen && !AnyEnds(seen)
    ensures !Ends(x)
  {
  }

  lemma AllAnnounced(history: seq<Poll>, seen: seq<SessionStatus>, events: seq<SessionEvent>,
      last: Option<SessionStatus>)
    requires Polled(history, |history|, seen) && Announced(seen, events, last)
    ensures events == StatusEvents(ThroughEnd(Changes(Seen(history)))) && EndOf(history) == StillOpen
  {
    hide Changes, ThroughEnd, StatusEvents;
    assert history[..|history|] == history;
    ThroughEndWhole(Changes(seen));
  }

  lemma FailureEnds(history: seq<Poll>, i: nat, seen: seq<SessionStatus>, events: seq<SessionEvent>,
      last: Option<SessionStatus>)
    requires i < |history| && Polled(history, i, seen) && Announced(seen, events, last) && history[i].Fails?
    ensures events == StatusEvents(ThroughEnd(Changes(Seen(history)))) && EndOf(history) == Threw
  {
    hide Changes, ThroughEnd, StatusEvents, Seen, EndOf;
    StoreFails(history, i);
  }

  lemma TerminalEnds(history: seq<Poll>, i: nat, seen: seq<SessionStatus>, events: seq<SessionEvent>,
      last: Option<SessionStatus>)
    requires i < |history| && Polled(history, i, seen) && Announced(seen, events, last)
    requires history[i].Saw? && Ends(history[i].status)
    ensures EndOf(history) == Finished
    ensures StatusEvents(ThroughEnd(Changes(Seen(history)))) == events + [StatusEvent(history[i].status, None)]
  {
    hide Changes, ThroughEnd, StatusEvents, Seen, EndOf, Ends;
    SessionOver(history, i);
    OneMoreEvent(Changes(seen), history[i].status);
  }

  /** The generator: polls, remembers the last status it announced, stops at a terminal one. */
  method Subscribe(history: seq<Poll>) returns (events: seq<SessionEvent>, end: SourceEnd)
    ensures events == StatusEvents(ThroughEnd(Changes(Seen(history))))
    ensures end == EndOf(history)
  {
    hide ThroughEnd, StatusEvents, EndOf, Changes, Seen, IsTerminal, MapStatus, Polled, Announced;
    events := [];
    var lastStatus: Option<SessionStatus> := None;
    ghost var seen: seq<SessionStatus> := [];
    var i := 0;
    NothingPolled(history);
    while i < |history|
      invariant 0 <= i <= |history|
      invariant Polled(history, i, seen) && Announced(seen, events, lastStatus)
    {
      var session := history[i];
      if session.Fails? {
        FailureEnds(history, i, seen, events, lastStatus);
        return events, Threw;
      }
      PollSees(history, i, seen);
      if session.Saw? {
        StatusAnnounced(seen, events, lastStatus, session.status);
        if Some(session.status) != lastStatus {
          ghost var before, last := events, lastStatus;
          lastStatus := Some(session.status);
          events := events + [StatusEvent(session.status, None)];
          if IsTerminal(MapStatus(session.status)) {
            TerminalEnds(history, i, seen, before, last);
            return events, Finished;
          }
        }
        seen := seen + [session.status];
      }
      i := i + 1;
    }
    AllAnnounced(history, seen, events, lastStatus);
    return events, StillOpen;
  }

  /** What the next poll adds to the statuses seen. */
  lemma OnePoll(history: seq<Poll>, i: nat)
    requires i < |history| && Fails !in history[..i]
    ensures Seen(history[..i + 1]) == Seen(history[..i]) + if history[i].Saw? then [history[i].status] else []
    ensures history[i] != Fails ==> Fails !in history[..i + 1]
  {
    hide Seen;
    SeenAppend(history[..i], [history[i]]);
    assert history[..i] + [history[i]] == history[..i + 1];
    SeenOne(history[i]);
  }

  lemma SeenOne(poll: Poll)
    ensures Seen([poll]) == if poll.Saw? then [poll.status] else []
  {
    assert [poll][1..] == [];
  }

  /** A failing store ends the source with what was announced so far. */
  lemma StoreFails(history: seq<Poll>, i: nat)
    requires i < |history| && Fails !in history[..i] && history[i].Fails?
    requires !AnyEnds(Seen(history[..i])) && !AnyEnds(Changes(Seen(history[..i])))
    ensures EndOf(history) == Threw && ThroughEnd(Changes(Seen(history))) == Changes(Seen(history[..i]))
  {
    hide Changes, ThroughEnd, AnyEnds;
    SeenAppend(history[..i], history[i..]);
    assert history[..i] + history[i..] == history;
    assert Seen(history) == Seen(history[..i]);
    ThroughEndWhole(Changes(Seen(history)));
  }

  /** What one more status adds to the changes. */
  lemma OneStatus(seen: seq<SessionStatus>, x: SessionStatus)
    ensures Changes(seen + [x]) == Changes(seen) + if seen != [] && seen[|seen| - 1] == x then [] else [x]
  {
    assert (seen + [x])[..|seen|] == seen;
  }

  lemma OneMoreEnds(s: seq<SessionStatus>, x: SessionStatus)
    ensures AnyEnds(s + [x]) == (AnyEnds(s) || Ends(x))
  {
    hide IsTerminal, MapStatus;
    assert x in s + [x];
  }

  lemma OneMoreEvent(s: seq<SessionStatus>, x: SessionStatus)
    ensures StatusEvents(s + [x]) == StatusEvents(s) + [StatusEvent(x, None)]
  {
  }

  lemma SeenAround(history: seq<Poll>, i: nat)
    requires i < |history| && Fails !in history[..i] && history[i].Saw?
    ensures Seen(history) == Seen(history[..i]) + [history[i].status] + Seen(history[i + 1..])
  {
    hide Seen;
    OnePoll(history, i);
    SeenAppend(history[..i + 1], history[i + 1..]);
    assert history[..i + 1] + history[i + 1..] == history;
  }

  /** A terminal status ends the matter: whatever the later polls would say. */
  lemma SessionOver(history: seq<Poll>, i: nat)
    requires i < |history| && Fails !in history[..i] && history[i].Saw? && Ends(history[i].status)
    requires !AnyEnds(Seen(history[..i])) && !AnyEnds(Changes(Seen(history[..i])))
    ensures EndOf(history) == Finished
    ensures ThroughEnd(Changes(Seen(history))) == Changes(Seen(history[..i])) + [history[i].status]
  {
    hide Changes, ThroughEnd, Seen, Ends;
    var x := history[i].status;
    var before, after := Seen(history[..i]), Seen(history[i + 1..]);
    SeenAround(history, i);
    ChangesThroughEnd(before, x, after);
    assert AnyEnds(before + [x] + after) by { assert x in before + [x] + after; }
  }

  lemma {:induction false} ThroughEndWhole(s: seq<SessionStatus>)
    requires !AnyEnds(s)
    ensures ThroughEnd(s) == s
  {
    if s != [] {
      assert !Ends(s[0]);
      ThroughEndWhole(s[1..]);
    }
  }

  /** Nothing after the first terminal status matters. */
  lemma ThroughEndStops(a: seq<SessionStatus>, x: SessionStatus, b: seq<SessionStatus>)
    requires !AnyEnds(a) && Ends(x)
    ensures ThroughEnd(a + [x] + b) == a + [x]
  {
    if a == [] {
      assert a + [x] + b == [x] + b;
    } else {
      assert !Ends(a[0]);
      ThroughEndStops(a[1..], x, b);
      assert (a + [x] + b)[1..] == a[1..] + [x] + b;
    }
  }

  lemma {:induction false} ChangesPrefix(s: seq<SessionStatus>, n: nat)
    requires n <= |s|
    ensures Changes(s[..n]) <= Changes(s)
    decreases |s| - n
  {
    if n == |s| {
      assert s[..n] == s;
    } else {
      ChangesPrefix(s, n + 1);
      assert s[..n + 1][..n] == s[..n];
    }
  }

  lemma ChangesThroughEnd(before: seq<SessionStatus>, x: SessionStatus, after: seq<SessionStatus>)
    requires !AnyEnds(Changes(before)) && !AnyEnds(before) && Ends(x)
    ensures ThroughEnd(Changes(before + [x] + after)) == Changes(before) + [x]
  {
    var whole := before + [x] + after;
    var n := |before| + 1;
    assert whole[..n] == before + [x] && (before + [x])[..n - 1] == before;
    assert before != [] ==> !Ends(before[|before| - 1]);
    ChangesPrefix(whole, n);
    var changes := Changes(whole);
    assert changes == Changes(before) + [x] + changes[|Changes(before)| + 1..];
    ThroughEndStops(Changes(before), x, changes[|Changes(before)| + 1..]);
  }

  // ---------------------------------------------------------------------------
  // The stream against the history it reports
  // ---------------------------------------------------------------------------

  function Updates(taskId: string, s: seq<SessionStatus>): seq<TaskEvent> {
    seq(|s|, i requires 0 <= i < |s| => CreateStatusUpdate(taskId, s[i], None))
  }

  /** The stream a client should see for a history of polls: the changes of status through the first terminal
      one, and a failure if the store fails before that. */
  function Streamed(taskId: string, history: seq<Poll>): seq<TaskEvent> {
    Updates(taskId, ThroughEnd(Changes(Seen(history))))
    + if EndOf(history) == Threw then [Failure(taskId)] else []
  }

  lemma {:induction false} TranslatedStatuses(taskId: string, s: seq<SessionStatus>)
    ensures Translated(taskId, StatusEvents(s)) == Updates(taskId, s)
    decreases |s|
  {
    if s != [] {
      var n := |s| - 1;
      TranslatedStatuses(taskId, s[..n]);
      assert StatusEvents(s)[..n] == StatusEvents(s[..n]);
      assert Updates(taskId, s) == Updates(taskId, s[..n]) + [CreateStatusUpdate(taskId, s[n], None)];
    }
  }

  lemma {:induction false} FinalUpdates(taskId: string, s: seq<SessionStatus>)
    ensures AnyFinal(Updates(taskId, s)) == AnyEnds(s)
  {
    hide IsTerminal, MapStatus;
    var u := Updates(taskId, s);
    if x :| x in s && Ends(x) {
      var i :| 0 <= i < |s| && s[i] == x;
      assert u[i] in u && IsFinal(u[i]);
    }
    if e :| e in u && IsFinal(e) {
      var i :| 0 <= i < |u| && u[i] == e;
      assert s[i] in s && Ends(s[i]);
    }
  }

  lemma {:induction false} ThroughEndCuts(s: seq<SessionStatus>)
    ensures ThroughEnd(s) <= s && AnyEnds(ThroughEnd(s)) == AnyEnds(s)
  {
    hide IsTerminal, MapStatus;
    if s != [] {
      assert s == [s[0]] + s[1..];
      ThroughEndCuts(s[1..]);
    }
  }

  lemma UpdatesLength(taskId: string, s: seq<SessionStatus>)
    ensures |Updates(taskId, s)| == |s|
  {
  }

  lemma UpdatesCons(taskId: string, x: SessionStatus, s: seq<SessionStatus>)
    ensures Updates(taskId, [x] + s) == [CreateStatusUpdate(taskId, x, None)] + Updates(taskId, s)
  {
    hide CreateStatusUpdate;
  }

  lemma {:induction false} CutsAgree(taskId: string, s: seq<SessionStatus>)
    ensures ThroughFinal(Updates(taskId, s)) == Updates(taskId, ThroughEnd(s))
  {
    hide Updates, MapStatus, IsTerminal;
    if s == [] {
      assert Updates(taskId, s) == [] by { UpdatesLength(taskId, s); }
    } else {
      CutsAgree(taskId, s[1..]);
      assert s == [s[0]] + s[1..];
      UpdatesCons(taskId, s[0], s[1..]);
      UpdatesCons(taskId, s[0], ThroughEnd(s[1..]));
      UpdatesCons(taskId, s[0], []);
      UpdatesLength(taskId, []);
      assert [s[0]] + [] == [s[0]];
      var u := Updates(taskId, s);
      assert u[0] == CreateStatusUpdate(taskId, s[0], None) && u[1..] == Updates(taskId, s[1..]);
    }
  }

  lemma {:induction false} SeenPolls(history: seq<Poll>, x: SessionStatus)
    ensures x in Seen(history) <==> exists i | 0 <= i < |history| :: history[i] == Saw(x) && Fails !in history[..i]
  {
    if history != [] {
      SeenPolls(history[1..], x);
      if i :| 0 <= i < |history| && history[i] == Saw(x) && Fails !in history[..i] {
        if i > 0 {
          assert history[..i] == [history[0]] + history[1..][..i - 1];
          assert history[1..][i - 1] == Saw(x) && Fails !in history[1..][..i - 1];
        }
      }
      if j :| 0 <= j < |history[1..]| && history[1..][j] == Saw(x) && Fails !in history[1..][..j] {
        assert history[..j + 1] == [history[0]] + history[1..][..j];
        if !history[0].Fails? { assert history[j + 1] == Saw(x) && Fails !in history[..j + 1]; }
      }
      if history[0] == Saw(x) { assert Fails !in history[..0]; }
    }
  }

  /** Poll `i` found the session over, before the store failed. */
  ghost predicate FoundOver(history: seq<Poll>, i: nat) {
    i < |history| && history[i].Saw? && Over(history[i].status) && Fails !in history[..i]
  }

  /** The source finishes exactly if some poll finds the session over before the store fails, throws exactly if the
      store fails without that, and else stays open. */
  lemma SourceEndLaw(history: seq<Poll>)
    ensures EndOf(history) == Finished <==> exists i: nat :: FoundOver(history, i)
    ensures EndOf(history) == Threw <==> Fails in history && !exists i: nat :: FoundOver(history, i)
  {
    hide Seen, Ends;
    if x :| x in Seen(history) && Ends(x) {
      StatusTable("", x, None);
      SeenPolls(history, x);
      var i :| 0 <= i < |history| && history[i] == Saw(x) && Fails !in history[..i];
      assert FoundOver(history, i);
    }
    if i: nat :| FoundOver(history, i) {
      StatusTable("", history[i].status, None);
      SeenPolls(history, history[i].status);
      assert history[i] == Saw(history[i].status);
      assert history[i].status in Seen(history);
    }
  }

  /** Removing repeats removes no status altogether. */
  lemma {:induction false} ChangesKeepStatuses(s: seq<SessionStatus>)
    ensures forall x :: x in Changes(s) <==> x in s
    ensures s != [] ==> Changes(s) != [] && Changes(s)[|Changes(s)| - 1] == s[|s| - 1]
    ensures forall i | 0 < i < |Changes(s)| :: Changes(s)[i] != Changes(s)[i - 1]
  {
    if s != [] {
      var n := |s| - 1;
      ChangesKeepStatuses(s[..n]);
      assert s == s[..n] + [s[n]];
      if n > 0 { assert s[..n][n - 1] == s[n - 1]; }
    }
  }

  lemma AnyEndsOfChanges(s: seq<SessionStatus>)
    ensures AnyEnds(Changes(s)) == AnyEnds(s)
  {
    ChangesKeepStatuses(s);
  }

  /** The polling source relayed is the history with its gaps and repeats removed and cut at the end of the
      session, closed exactly when its last event is final. */
  lemma StreamRefinesPolls(taskId: string, history: seq<Poll>)
    ensures var changes := ThroughEnd(Changes(Seen(history)));
            var sent := Relayed(taskId, StatusEvents(changes), EndOf(history));
            && sent == Streamed(taskId, history)
            && (EndOf(history) == StillOpen <==> !AnyFinal(sent))
  {
    hide Changes, ThroughEnd, Seen, ThroughFinal, AnyEnds, AnyFinal, Updates, Translated, StatusEvents;
    var all := Changes(Seen(history));
    var changes := ThroughEnd(all);
    TranslatedStatuses(taskId, changes);
    FinalUpdates(taskId, changes);
    AnyEndsOfChanges(Seen(history));
    ThroughEndCuts(all);
    CutsAgree(taskId, all);
    FinalIsKept(Updates(taskId, all));
    ThroughFinalIdempotent(Updates(taskId, all));
    AtMostOneFinal(taskId, StatusEvents(changes), EndOf(history));
  }

  lemma {:induction false} ThroughFinalIdempotent(s: seq<TaskEvent>)
    ensures ThroughFinal(ThroughFinal(s)) == ThroughFinal(s)
  {
    if s != [] {
      ThroughFinalIdempotent(s[1..]);
      assert ([s[0]] + ThroughFinal(s[1..]))[1..] == ThroughFinal(s[1..]);
    }
  }

  lemma {:induction false} EndsStay(a: seq<SessionStatus>, b: seq<SessionStatus>)
    requires AnyEnds(a)
    ensures AnyEnds(a + b) && ThroughEnd(a + b) == ThroughEnd(a)
  {
    if !Ends(a[0]) {
      assert a == [a[0]] + a[1..];
      EndsStay(a[1..], b);
      assert (a + b)[1..] == a[1..] + b;
    }
  }

  /** Further polls only ever append to what was streamed, and change nothing once a final event is out. */
  lemma NothingIsRetracted(taskId: string, history: seq<Poll>, more: seq<Poll>)
    ensures Streamed(taskId, history) <= Streamed(taskId, history + more)
    ensures EndOf(history) != StillOpen ==> Streamed(taskId, history + more) == Streamed(taskId, history)
  {
    hide Changes, ThroughEnd, Seen, MapStatus, IsTerminal;
    var seen := Seen(history);
    SeenAppend(history, more);
    if Fails !in history {
      GrowthOfChanges(seen, Seen(more));
    }
  }

  lemma GrowthOfChanges(seen: seq<SessionStatus>, more: seq<SessionStatus>)
    ensures ThroughEnd(Changes(seen)) <= ThroughEnd(Changes(seen + more))
    ensures AnyEnds(seen) ==> AnyEnds(seen + more) && ThroughEnd(Changes(seen + more)) == ThroughEnd(Changes(seen))
  {
    hide Changes, ThroughEnd, MapStatus, IsTerminal;
    var all := seen + more;
    assert all[..|seen|] == seen;
    ChangesPrefix(all, |seen|);
    AnyEndsOfChanges(seen);
    var rest := Changes(all)[|Changes(seen)|..];
    assert Changes(all) == Changes(seen) + rest;
    if AnyEnds(seen) {
      EndsStay(Changes(seen), rest);
    } else {
      ThroughEndWhole(Changes(seen));
      ThroughEndAfter(Changes(seen), rest);
    }
  }

  lemma {:induction false} ThroughEndAfter(a: seq<SessionStatus>, b: seq<SessionStatus>)
    requires !AnyEnds(a)
    ensures ThroughEnd(a + b) == a + ThroughEnd(b)
  {
    if a == [] {
      assert a + b == b;
    } else {
      assert !Ends(a[0]);
      ThroughEndAfter(a[1..], b);
      assert (a + b)[1..] == a[1..] + b;
    }
  }

  /** While a stream is open its last event reports the latest status polled. */
  lemma StreamIsCurrent(taskId: string, history: seq<Poll>)
    requires EndOf(history) == StillOpen && Seen(history) != []
    ensures var sent := Streamed(taskId, history);
            var seen := Seen(history);
            sent != [] && sent[|sent| - 1] == CreateStatusUpdate(taskId, seen[|seen| - 1], None)
  {
    AnyEndsOfChanges(Seen(history));
    ThroughEndWhole(Changes(Seen(history)));
    ChangesKeepStatuses(Seen(history));
  }

  /** The repeats removed are those of the session's status: two session statuses that mean the same to a
      client are still announced twice. */
  lemma ClientsSeeRepeats(taskId: string)
    ensures var sent := Streamed(taskId, [Saw(Pending), Saw(Pending), Saw(Claimed)]);
            |sent| == 2 && sent[0] == sent[1]
  {
    var h := [Saw(Pending), Saw(Pending), Saw(Claimed)];
    assert Seen(h) == [Pending, Pending, Claimed] by {
      assert h[1..] == [Saw(Pending), Saw(Claimed)] && h[1..][1..] == [Saw(Claimed)] && h[1..][1..][1..] == [];
    }
    TwoChanges();
    ThroughEndWhole([Pending, Claimed]);
  }

  lemma TwoChanges()
    ensures Changes([Pending, Pending, Claimed]) == [Pending, Claimed]
  {
    OneStatus([], Pending);
    OneStatus([Pending], Pending);
    OneStatus([Pending, Pending], Claimed);
    assert [] + [Pending] == [Pending];
    assert [Pending] + [Pending] == [Pending, Pending];
    assert [Pending, Pending] + [Claimed] == [Pending, Pending, Claimed];
  }

  /** The handler for one client of a session with no other subscriber, who stays to the end. */
  method CreateSseStream(taskId: string, sessionId: Option<string>, history: seq<Poll>) returns (response: Response)
    ensures response == if sessionId.None? || sessionId.value == "" then NotFound
                        else Streaming(Streamed(taskId, history), EndOf(history) != StillOpen)
  {
    if sessionId.None? || sessionId.value == "" {
      return NotFound;
    }
    var events, end := Subscribe(history);
    StreamRefinesPolls(taskId, history);
    AtMostOneFinal(taskId, events, end);
    var sent, closed := Relay(taskId, events, end);
    return Streaming(sent, closed);
  }
}
