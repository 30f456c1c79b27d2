/** The comments an agent posts when it has finished: a header, the summary, the plan status and a
    footer, in one comment cut to size or in several. */
module CompletionComments {
  import opened JsText
  import opened FenceScan
  import opened CommentSplitter
  import opened Checkboxes

  datatype PlanItem = PlanItem(state: string, title: string)

  const HEADER := "## Agent Work Complete\n\n"
  const PLAN_HEADER := "\n\n### Final Plan Status\n\n"

  function Footer(sessionId: Option<string>): string {
    "\n\n---\n*Session ID: " + (if sessionId.Some? then sessionId.value else "unknown") + "*"
  }

  /** The icon of a state, in code units: the one for work in progress takes two, written here as two
      characters of the private use area. */
  function Icon(state: string): string {
    if state == "inProgress" then "\U{E000}\U{E001}"
    else if state == "completed" then "\U{2705}"
    else if state == "canceled" then "\U{274C}"
    else "\U{2B1C}"
  }

  function FullPlanStatus(items: seq<PlanItem>): string {
    if items == [] then ""
    else
      var line := Icon(items[0].state) + " " + items[0].title;
      if |items| == 1 then line else line + "\n" + FullPlanStatus(items[1..])
  }

  function CountState(items: seq<PlanItem>, state: string): nat {
    if items == [] then 0 else (if items[0].state == state then 1 else 0) + CountState(items[1..], state)
  }

  function AbbreviatedPlanStatus(items: seq<PlanItem>): string {
    var pending, canceled := CountState(items, "pending"), CountState(items, "canceled");
    "\U{2705} " + Decimal(CountState(items, "completed")) + " completed"
    + (if pending > 0 then " | \U{2B1C} " + Decimal(pending) + " pending" else "")
    + (if canceled > 0 then " | \U{274C} " + Decimal(canceled) + " canceled" else "")
  }

  /** `s.substring(0, n)`. */
  function Prefix(s: string, n: int): string {
    if n <= 0 then "" else if n >= |s| then s else s[..n]
  }

  function TruncateText(text: string, maxLength: int): string {
    if |text| <= maxLength then text
    else Prefix(text, maxLength - |TRUNCATION_MARKER|) + TRUNCATION_MARKER
  }

  /** A cut text has exactly the maximum length, unless not even the marker fits: then it has the marker's. */
  lemma TruncateLength(text: string, maxLength: int)
    requires |text| > maxLength
    ensures |TruncateText(text, maxLength)| ==
            if maxLength >= |TRUNCATION_MARKER| then maxLength else |TRUNCATION_MARKER|
  {
  }

  // ---------------------------------------------------------------------------
  // One comment
  // ---------------------------------------------------------------------------

  function FullComment(summary: string, items: seq<PlanItem>, sessionId: Option<string>): string {
    HEADER + summary + PLAN_HEADER + FullPlanStatus(items) + Footer(sessionId)
  }

  function Suffix(items: seq<PlanItem>, sessionId: Option<string>): string {
    PLAN_HEADER + AbbreviatedPlanStatus(items) + Footer(sessionId)
  }

  function BuildCompletionComment(summary: string, items: seq<PlanItem>, sessionId: Option<string>,
      maxLength: int): string {
    var suffix := Suffix(items, sessionId);
    if |FullComment(summary, items, sessionId)| <= maxLength then FullComment(summary, items, sessionId)
    else if |HEADER + summary + suffix| <= maxLength then HEADER + summary + suffix
    else
      var available := maxLength - (|HEADER| + |suffix| + |TRUNCATION_MARKER|);
      if available > 100 then HEADER + Prefix(summary, available) + TRUNCATION_MARKER + suffix
      else TruncateText(FullComment(summary, items, sessionId), maxLength)
  }

  /** The line of an item: the icon of its state, a blank and its title. */
  ghost predicate PlanLine(line: string, item: PlanItem) {
    line == (if item.state == "completed" then "\U{2705} "
             else if item.state == "inProgress" then "\U{E000}\U{E001} "
             else if item.state == "canceled" then "\U{274C} "
             else "\U{2B1C} ") + item.title
  }

  /** The full plan has one line for each item, in order; if the titles are single lines it splits into just these. */
  lemma {:induction false} PlanIsListed(items: seq<PlanItem>) returns (lines: seq<string>)
    requires items != []
    ensures |lines| == |items| && FullPlanStatus(items) == JoinLines(lines)
    ensures forall i | 0 <= i < |items| :: PlanLine(lines[i], items[i])
    ensures (forall i | 0 <= i < |items| :: OneLine(items[i].title)) ==> SplitLines(FullPlanStatus(items)) == lines
    decreases |items|
  {
    lines := PlanJoins(items);
    if forall i | 0 <= i < |items| :: OneLine(items[i].title) {
      forall i | 0 <= i < |lines| ensures OneLine(lines[i]) {
        assert PlanLine(lines[i], items[i]);
      }
      SplitInvertsJoin(lines);
    }
  }

  lemma {:induction false} PlanJoins(items: seq<PlanItem>) returns (lines: seq<string>)
    requires items != []
    ensures |lines| == |items| && FullPlanStatus(items) == JoinLines(lines)
    ensures forall i | 0 <= i < |items| :: PlanLine(lines[i], items[i])
    decreases |items|
  {
    var first := Icon(items[0].state) + " " + items[0].title;
    assert PlanLine(first, items[0]);
    lines := [first];
    if |items| > 1 {
      var rest := PlanJoins(items[1..]);
      lines := [first] + rest;
      assert lines[1..] == rest;
      forall i | 0 < i < |items| ensures PlanLine(lines[i], items[i]) {
        assert PlanLine(rest[i - 1], items[1..][i - 1]);
      }
    }
  }

  /** How many items are in a state. */
  ghost function InState(items: seq<PlanItem>, state: string): nat {
    |set i | 0 <= i < |items| && items[i].state == state|
  }

  lemma {:induction false} CountSnoc(items: seq<PlanItem>, last: PlanItem, state: string)
    ensures CountState(items + [last], state) == CountState(items, state) + if last.state == state then 1 else 0
    decreases |items|
  {
    if items == [] {
      assert ([] + [last])[1..] == [];
    } else {
      CountSnoc(items[1..], last, state);
      assert (items + [last])[1..] == items[1..] + [last];
    }
  }

  lemma InStateSnoc(items: seq<PlanItem>, last: PlanItem, state: string)
    ensures InState(items + [last], state) == InState(items, state) + if last.state == state then 1 else 0
  {
    var n, all := |items|, items + [last];
    var before := set i | 0 <= i < n && items[i].state == state;
    var after := set i | 0 <= i < n + 1 && all[i].state == state;
    assert after == before + if last.state == state then {n} else {};
  }

  lemma {:induction false} CountIsInState(items: seq<PlanItem>, state: string)
    ensures CountState(items, state) == InState(items, state)
    decreases |items|
  {
    if items != [] {
      hide CountState, InState;
      var n := |items| - 1;
      CountIsInState(items[..n], state);
      CountSnoc(items[..n], items[n], state);
      InStateSnoc(items[..n], items[n], state);
      assert items[..n] + [items[n]] == items;
    }
  }

  /** The abbreviated plan gives the numbers of completed, pending and canceled items in this order, the latter two
      only when there are any; work in progress and unknown states are not mentioned. */
  lemma AbbreviatedCounts(items: seq<PlanItem>) returns (done: string, pending: string, canceled: string)
    ensures ValueOf(done) == InState(items, "completed")
    ensures ValueOf(pending) == InState(items, "pending")
    ensures ValueOf(canceled) == InState(items, "canceled")
    ensures AbbreviatedPlanStatus(items)
         == "\U{2705} " + done + " completed"
            + (if InState(items, "pending") > 0 then " | \U{2B1C} " + pending + " pending" else "")
            + (if InState(items, "canceled") > 0 then " | \U{274C} " + canceled + " canceled" else "")
  {
    hide CountState, InState, Decimal, ValueOf;
    CountIsInState(items, "completed");
    CountIsInState(items, "pending");
    CountIsInState(items, "canceled");
    done, pending := Decimal(InState(items, "completed")), Decimal(InState(items, "pending"));
    canceled := Decimal(InState(items, "canceled"));
    DecimalValue(InState(items, "completed"));
    DecimalValue(InState(items, "pending"));
    DecimalValue(InState(items, "canceled"));
  }

  /** The single comment respects the maximum length exactly when that has room for the truncation
      marker, whatever is in it; and once the summary or the whole had to be cut, the room is used up. */
  lemma CommentBudget(summary: string, items: seq<PlanItem>, sessionId: Option<string>, maxLength: int)
    ensures |BuildCompletionComment(summary, items, sessionId, maxLength)| <= maxLength
            <==> maxLength >= |TRUNCATION_MARKER|
    ensures |FullComment(summary, items, sessionId)| > maxLength >= |TRUNCATION_MARKER|
            && |HEADER + summary + Suffix(items, sessionId)| > maxLength ==>
              |BuildCompletionComment(summary, items, sessionId, maxLength)| == maxLength
  {
    hide FullPlanStatus, AbbreviatedPlanStatus, Footer;
    assert |FullComment(summary, items, sessionId)| > |TRUNCATION_MARKER|;
    assert |Suffix(items, sessionId)| >= |PLAN_HEADER|;
  }

  /** What the single comment consists of: everything if that fits; else the header, the summary or the first `k`
      characters of it with the truncation marker, the abbreviated plan and the session; and only if that
      would leave a cut summary 100 characters at most, the beginning of the whole and the marker. */
  lemma CommentShape(summary: string, items: seq<PlanItem>, sessionId: Option<string>, maxLength: int)
    returns (k: nat)
    ensures var comment := BuildCompletionComment(summary, items, sessionId, maxLength);
            var whole := "## Agent Work Complete\n\n" + summary + "\n\n### Final Plan Status\n\n"
                         + FullPlanStatus(items) + ("\n\n---\n*Session ID: " + sessionId.GetOr("unknown") + "*");
            var ending := "\n\n### Final Plan Status\n\n" + AbbreviatedPlanStatus(items)
                          + ("\n\n---\n*Session ID: " + sessionId.GetOr("unknown") + "*");
            && k <= |whole|
            && (|whole| <= maxLength ==> comment == whole)
            && (comment != whole ==>
                  || (k == |summary| && comment == "## Agent Work Complete\n\n" + summary + ending)
                  || (100 < k <= |summary|
                      && comment == "## Agent Work Complete\n\n" + summary[..k] + TRUNCATION_MARKER + ending)
                  || comment == whole[..k] + TRUNCATION_MARKER)
  {
    hide FullPlanStatus, AbbreviatedPlanStatus;
    var whole, suffix := FullComment(summary, items, sessionId), Suffix(items, sessionId);
    var available := maxLength - (|HEADER| + |suffix| + |TRUNCATION_MARKER|);
    var room := maxLength - |TRUNCATION_MARKER|;
    if |whole| <= maxLength || |HEADER + summary + suffix| <= maxLength {
      k := |summary|;
    } else if available > 100 {
      k := available;
      assert Prefix(summary, available) == summary[..k];
    } else {
      k := if room <= 0 then 0 else room;
      assert Prefix(whole, room) == whole[..k];
    }
  }

  // ---------------------------------------------------------------------------
  // Taking markers off again
  // ---------------------------------------------------------------------------

  predicate IsDigit(c: char) {
    '0' <= c <= '9'
  }

  /** Where the run of digits that ends before `e` begins. */
  function DigitRun(s: string, e: nat): (b: nat)
    requires e <= |s|
    ensures b <= e
  {
    if e > 0 && IsDigit(s[e - 1]) then DigitRun(s, e - 1) else e
  }

  /** Remove a part marker from the end, if there is one. */
  function StripPartMarker(s: string): (r: string)
    ensures r <= s
  {
    if s == "" || s[|s| - 1] != '*' then s
    else
      var b2 := DigitRun(s, |s| - 1);
      if b2 == |s| - 1 || b2 == 0 || s[b2 - 1] != '/' then s
      else
        var b1 := DigitRun(s, b2 - 1);
        if b1 == b2 - 1 || b1 < |PART_PREFIX| || s[b1 - |PART_PREFIX|..b1] != PART_PREFIX then s
        else s[..b1 - |PART_PREFIX|]
  }

  /** Remove every occurrence of `pattern`, from left to right. */
  function RemoveAll(s: string, pattern: string): (r: string)
    requires pattern != ""
    ensures |r| <= |s|
    decreases |s|
  {
    if s == "" then ""
    else if At(s, 0, pattern) then RemoveAll(s[|pattern|..], pattern)
    else [s[0]] + RemoveAll(s[1..], pattern)
  }

  lemma {:induction false} DigitRunStops(s: string, b: nat, e: nat)
    requires b <= e <= |s| && (b == 0 || !IsDigit(s[b - 1])) && forall i | b <= i < e :: IsDigit(s[i])
    ensures DigitRun(s, e) == b
    decreases e
  {
    if b < e {
      DigitRunStops(s, b, e - 1);
    }
  }

  /** Stripping a text that ends in the marker's prefix, digits from `b1`, a slash, digits from `b2` and a star. */
  lemma StripAt(s: string, b1: nat, b2: nat)
    requires |PART_PREFIX| <= b1 < b2 - 1 && b2 < |s| - 1
    requires s[b1 - |PART_PREFIX|..b1] == PART_PREFIX
    requires (forall i | b1 <= i < b2 - 1 :: IsDigit(s[i])) && s[b2 - 1] == '/'
    requires (forall i | b2 <= i < |s| - 1 :: IsDigit(s[i])) && s[|s| - 1] == '*'
    ensures StripPartMarker(s) == s[..b1 - |PART_PREFIX|]
  {
    hide DigitRun;
    assert s[b1 - 1] == s[b1 - |PART_PREFIX|..b1][|PART_PREFIX| - 1] == ' ';
    DigitRunStops(s, b2, |s| - 1);
    DigitRunStops(s, b1, b2 - 1);
  }

  lemma StripTag(x: string, d1: string, d2: string)
    requires d1 != "" && forall i | 0 <= i < |d1| :: IsDigit(d1[i])
    requires d2 != "" && forall i | 0 <= i < |d2| :: IsDigit(d2[i])
    ensures StripPartMarker(x + (PART_PREFIX + d1 + "/" + d2 + "*")) == x
  {
    hide StripPartMarker;
    var s := x + (PART_PREFIX + d1 + "/" + d2 + "*");
    var b1 := |x| + |PART_PREFIX|;
    var b2 := b1 + |d1| + 1;
    assert s[|x|..b1] == PART_PREFIX;
    forall i | b1 <= i < b2 - 1 ensures IsDigit(s[i]) { assert s[i] == d1[i - b1]; }
    forall i | b2 <= i < |s| - 1 ensures IsDigit(s[i]) { assert s[i] == d2[i - b2]; }
    StripAt(s, b1, b2);
    assert s[..|x|] == x;
  }

  lemma StripInvertsMarker(x: string, part: nat, total: nat)
    ensures StripPartMarker(x + PartMarker(part, total)) == x
  {
    hide StripPartMarker, Decimal;
    StripTag(x, Decimal(part), Decimal(total));
  }

  /** `pattern` does not occur in `s`. */
  ghost predicate Free(s: string, pattern: string) {
    forall p | 0 <= p < |s| :: !At(s, p, pattern)
  }

  lemma AtTail(s: string, p: nat, pattern: string)
    requires 1 <= p <= |s|
    ensures At(s[1..], p - 1, pattern) == At(s, p, pattern)
  {
    if p + |pattern| <= |s| {
      assert s[1..][p - 1..p - 1 + |pattern|] == s[p..p + |pattern|];
    }
  }

  /** Removal stops short of nothing: what has no occurrence before its last `k` characters keeps
      the rest, and loses those if they are the pattern. */
  lemma {:induction false} RemoveAllKeeps(s: string, n: nat, pattern: string)
    requires pattern != "" && n <= |s|
    requires forall p | 0 <= p < n :: !At(s, p, pattern)
    requires s[n..] == "" || s[n..] == pattern
    ensures RemoveAll(s, pattern) == s[..n]
    decreases |s|
  {
    if n > 0 {
      assert !At(s, 0, pattern);
      forall p | 0 <= p < n - 1 ensures !At(s[1..], p, pattern) {
        AtTail(s, p + 1, pattern);
      }
      assert s[1..][n - 1..] == s[n..] && s[1..][..n - 1] == s[1..n];
      RemoveAllKeeps(s[1..], n - 1, pattern);
      assert [s[0]] + s[1..n] == s[..n];
    } else if s != "" {
      assert s == pattern == s[0..|pattern|] && s[|pattern|..] == "";
    }
  }

  /** The continuation marker holds two line ends in a row only at its beginning. */
  lemma MarkerNewlines(k: nat)
    requires 1 <= k < |CONTINUATION_MARKER|
    ensures CONTINUATION_MARKER[k] != '\n' || (k + 1 < |CONTINUATION_MARKER| && CONTINUATION_MARKER[k + 1] != '\n')
  {
  }

  /** No continuation marker straddles the end of a text and a marker that begins with two line ends. */
  lemma NoStraddling(x: string, t: string, p: nat)
    requires |t| >= 2 && t[0] == t[1] == '\n' && p < |x| && At(x + t, p, CONTINUATION_MARKER)
    ensures p + |CONTINUATION_MARKER| <= |x|
  {
    var s := x + t;
    var m := |CONTINUATION_MARKER|;
    if p + m > |x| {
      var k := |x| - p;
      assert forall j | 0 <= j < m :: s[p + j] == s[p..p + m][j] == CONTINUATION_MARKER[j];
      assert CONTINUATION_MARKER[k] == s[p + k] == t[0];
      assert k + 1 < m ==> CONTINUATION_MARKER[k + 1] == s[p + (k + 1)] == t[1];
      MarkerNewlines(k);
    }
  }

  lemma AtWithin(x: string, t: string, p: nat, pattern: string)
    requires p + |pattern| <= |x|
    ensures At(x + t, p, pattern) == At(x, p, pattern)
  {
    assert (x + t)[p..p + |pattern|] == x[p..p + |pattern|];
  }

  lemma AtStart(x: string, t: string, pattern: string)
    ensures At(x, 0, pattern) ==> |pattern| <= |x|
    ensures |pattern| <= |x| ==> At(x + t, 0, pattern) == At(x, 0, pattern)
  {
    if |pattern| <= |x| { AtWithin(x, t, 0, pattern); }
  }

  /** So what is removed from a marked text is what is removed from the text and from the marker. */
  lemma {:induction false} RemoveFromMarked(x: string, t: string)
    requires |t| >= 2 && t[0] == t[1] == '\n'
    ensures RemoveAll(x + t, CONTINUATION_MARKER) == RemoveAll(x, CONTINUATION_MARKER)
        + RemoveAll(t, CONTINUATION_MARKER)
    decreases |x|
  {
    hide At;
    var m := CONTINUATION_MARKER;
    if x == "" {
      assert x + t == t;
    } else {
      AtStart(x, t, m);
      if At(x + t, 0, m) {
        NoStraddling(x, t, 0);
        RemoveFromMarked(x[|m|..], t);
        assert (x + t)[|m|..] == x[|m|..] + t;
      } else {
        RemoveFromMarked(x[1..], t);
        assert (x + t)[1..] == x[1..] + t && (x + t)[0] == x[0];
        Associative([x[0]], RemoveAll(x[1..], m), RemoveAll(t, m));
      }
    }
  }

  lemma RemoveMarkers()
    ensures RemoveAll(CONTINUATION_MARKER, CONTINUATION_MARKER) == ""
    ensures RemoveAll(TRUNCATION_MARKER, CONTINUATION_MARKER) == TRUNCATION_MARKER
  {
    hide RemoveAll;
    RemoveAllKeeps(CONTINUATION_MARKER, 0, CONTINUATION_MARKER);
    RemoveAllKeeps(TRUNCATION_MARKER, |TRUNCATION_MARKER|, CONTINUATION_MARKER);
  }

  lemma {:induction false} SomethingRemoved(s: string, p: nat, pattern: string)
    requires pattern != "" && p < |s| && At(s, p, pattern)
    ensures |RemoveAll(s, pattern)| < |s|
    decreases |s|
  {
    if !At(s, 0, pattern) {
      AtTail(s, p, pattern);
      SomethingRemoved(s[1..], p - 1, pattern);
    }
  }

  /** Removal changes a text, and then its length, exactly if the pattern occurs in it. */
  lemma RemovalLaw(s: string, pattern: string)
    requires pattern != ""
    ensures Free(s, pattern) ==> RemoveAll(s, pattern) == s
    ensures !Free(s, pattern) ==> |RemoveAll(s, pattern)| < |s|
  {
    hide RemoveAll;
    if Free(s, pattern) {
      RemoveAllKeeps(s, |s|, pattern);
      assert s[..|s|] == s;
    } else {
      var p :| 0 <= p < |s| && At(s, p, pattern);
      SomethingRemoved(s, p, pattern);
    }
  }

  // ---------------------------------------------------------------------------
  // Several comments
  // ---------------------------------------------------------------------------

  function Longer(x: int, y: int): int {
    if x >= y then x else y
  }

  /** The maximum length handed to the splitter for the summary. */
  function SummaryLength(items: seq<PlanItem>, sessionId: Option<string>, maxLength: int): int {
    maxLength - COMMENT_OVERHEAD - Longer(|HEADER|, |Suffix(items, sessionId)|)
  }

  /** One final body from the `i`-th of the splitter's `n`: its markers come off, the code's own go on. */
  function Rebuilt(body: string, i: nat, n: nat, suffix: string): string {
    var headed := (if i == 0 then HEADER else "") + body;
    var bare := if n > 1 then RemoveAll(StripPartMarker(headed), CONTINUATION_MARKER) else headed;
    var full := bare + (if i == n - 1 then suffix else "");
    if n > 1 then full + (if i < n - 1 then CONTINUATION_MARKER else "") + PartMarker(i + 1, n) else full
  }

  function RebuiltAll(parts: seq<CommentChunk>, suffix: string): seq<CommentChunk> {
    seq(|parts|, i requires 0 <= i < |parts| =>
      CommentChunk(Rebuilt(parts[i].body, i, |parts|, suffix), i + 1, |parts|))
  }

  function BuildCompletionComments(summary: string, items: seq<PlanItem>, sessionId: Option<string>,
      maxLength: int): seq<CommentChunk> {
    var suffix := Suffix(items, sessionId);
    if |FullComment(summary, items, sessionId)| <= maxLength
        then [CommentChunk(FullComment(summary, items, sessionId), 1, 1)]
    else if |HEADER + summary + suffix| <= maxLength then [CommentChunk(HEADER + summary + suffix, 1, 1)]
    else
      var room := SummaryLength(items, sessionId, maxLength);
      RebuiltAll(SplitContentIntoComments(summary, room, MAX_COMPLETION_COMMENTS), suffix)
  }

  method BuildComments(summary: string, items: seq<PlanItem>, sessionId: Option<string>, maxLength: int)
    returns (result: seq<CommentChunk>)
    ensures result == BuildCompletionComments(summary, items, sessionId, maxLength)
  {
    hide FullPlanStatus, AbbreviatedPlanStatus, SplitContentIntoComments, StripPartMarker, RemoveAll, PartMarker;
    var suffix := PLAN_HEADER + AbbreviatedPlanStatus(items) + Footer(sessionId);
    var fullComment := HEADER + summary + PLAN_HEADER + FullPlanStatus(items) + Footer(sessionId);
    if |fullComment| <= maxLength {
      return [CommentChunk(fullComment, 1, 1)];
    }
    var abbreviatedComment := HEADER + summary + suffix;
    if |abbreviatedComment| <= maxLength {
      return [CommentChunk(abbreviatedComment, 1, 1)];
    }
    var room := maxLength - COMMENT_OVERHEAD - Longer(|HEADER|, |suffix|);
    var summaryChunks := SplitIntoComments(summary, room, MAX_COMPLETION_COMMENTS);
    result := RebuildAll(summaryChunks, suffix);
  }

  method RebuildAll(summaryChunks: seq<CommentChunk>, suffix: string) returns (result: seq<CommentChunk>)
    ensures result == RebuiltAll(summaryChunks, suffix)
  {
    hide StripPartMarker, RemoveAll, PartMarker;
    var totalParts := |summaryChunks|;
    result := [];
    for i := 0 to totalParts
      invariant result == RebuiltAll(summaryChunks, suffix)[..i]
    {
      var body := "";
      if i == 0 {
        body := body + HEADER;
      }
      body := body + summaryChunks[i].body;
      assert body == (if i == 0 then HEADER else "") + summaryChunks[i].body;
      if totalParts > 1 {
        body := StripPartMarker(body);
        body := RemoveAll(body, CONTINUATION_MARKER);
      }
      ghost var bare := body;
      if i == totalParts - 1 {
        body := body + suffix;
      }
      assert body == bare + (if i == totalParts - 1 then suffix else "");
      ghost var full := body;
      if totalParts > 1 {
        if i != totalParts - 1 {
          body := body + CONTINUATION_MARKER;
        }
        assert body == full + (if i < totalParts - 1 then CONTINUATION_MARKER else "");
        body := body + PartMarker(i + 1, totalParts);
      }
      assert body == Rebuilt(summaryChunks[i].body, i, totalParts, suffix);
      result := result + [CommentChunk(body, i + 1, totalParts)];
    }
  }

  /** When nothing has to be cut the two builders agree. */
  lemma BuildersAgree(summary: string, items: seq<PlanItem>, sessionId: Option<string>, maxLength: int)
    requires || |FullComment(summary, items, sessionId)| <= maxLength
             || |HEADER + summary + Suffix(items, sessionId)| <= maxLength
    ensures BuildCompletionComments(summary, items, sessionId, maxLength)
         == [CommentChunk(BuildCompletionComment(summary, items, sessionId, maxLength), 1, 1)]
  {
    hide FullPlanStatus, AbbreviatedPlanStatus, Footer;
  }

  /** A summary that gets this far is too long for the splitter's own single comment. */
  lemma SplittingPathSplits(summary: string, items: seq<PlanItem>, sessionId: Option<string>, maxLength: int)
    requires |HEADER + summary + Suffix(items, sessionId)| > maxLength
    ensures |summary| > SummaryLength(items, sessionId, maxLength) - COMMENT_OVERHEAD
  {
    hide Suffix;
  }

  /** On the splitting path a single comment comes out exactly when the summary is not empty and all of it after its
      first split point is white space. */
  lemma SingleCommentLaw(summary: string, items: seq<PlanItem>, sessionId: Option<string>, maxLength: int)
    requires |FullComment(summary, items, sessionId)| > maxLength
    requires |HEADER + summary + Suffix(items, sessionId)| > maxLength
    ensures var room := SummaryLength(items, sessionId, maxLength);
            |BuildCompletionComments(summary, items, sessionId, maxLength)| == 1 <==>
            summary != "" && Blank(summary[TurnPoint(summary, room - COMMENT_OVERHEAD)..])
  {
    hide Suffix, FullComment, SplitContentIntoComments, Rebuilt, Blank, TurnPoint;
    SplittingPathSplits(summary, items, sessionId, maxLength);
    SinglePartLaw(summary, SummaryLength(items, sessionId, maxLength), MAX_COMPLETION_COMMENTS);
  }

  /** What a caller can tell from lengths: a summary that ends in enough white space yields a single comment, one
      without fences that is long without it yields several. */
  lemma SingleCommentByLength(summary: string, items: seq<PlanItem>, sessionId: Option<string>, maxLength: int)
    requires |FullComment(summary, items, sessionId)| > maxLength
    requires |HEADER + summary + Suffix(items, sessionId)| > maxLength
    requires SummaryLength(items, sessionId, maxLength) >= LEAST_MAX_LENGTH
    ensures var ending := |Suffix(items, sessionId)|;
            var room := maxLength - COMMENT_OVERHEAD - (if |HEADER| >= ending then |HEADER| else ending);
            var target := room - COMMENT_OVERHEAD - |CONTINUATION_MARKER|;
            var solid, n := |TrimEnd(summary)|, |BuildCompletionComments(summary, items, sessionId, maxLength)|;
            && (10 * solid <= 3 * target ==> n == 1)
            && (NoFence(summary) && solid > target + 1 ==> n > 1)
  {
    hide Suffix, FullComment, SplitContentIntoComments, Rebuilt, TrimEnd, NoFence;
    SplittingPathSplits(summary, items, sessionId, maxLength);
    SinglePartByLength(summary, SummaryLength(items, sessionId, maxLength), MAX_COMPLETION_COMMENTS);
  }

  function Blanks(n: nat): string {
    if n == 0 then "" else Blanks(n - 1) + " "
  }

  lemma TrimStep(s: string)
    requires s != ""
    ensures s[|s| - 1] == ' ' ==> TrimEnd(s) == TrimEnd(s[..|s| - 1])
    ensures !IsSpace(s[|s| - 1]) ==> TrimEnd(s) == s
  {
  }

  lemma {:induction false} BlanksTrim(x: string, n: nat)
    requires x != "" && !IsSpace(x[|x| - 1])
    ensures TrimEnd(x + Blanks(n)) == x && |Blanks(n)| == n
    decreases n
  {
    hide TrimEnd, IsSpace, Blank;
    var s := x + Blanks(n);
    if n == 0 {
      assert s == x;
    } else {
      BlanksTrim(x, n - 1);
      assert s[..|s| - 1] == x + Blanks(n - 1) && s[|s| - 1] == ' ';
    }
    TrimStep(s);
  }

  /** The splitting path does yield a single comment: for a word or two followed by as many blanks as the maximum
      length, whatever the plan. */
  lemma DoneAndBlanks(items: seq<PlanItem>, sessionId: Option<string>, maxLength: nat)
    requires SummaryLength(items, sessionId, maxLength) >= LEAST_MAX_LENGTH + 100
    ensures var summary := "Done." + Blanks(maxLength);
            && |FullComment(summary, items, sessionId)| > maxLength
            && |HEADER + summary + Suffix(items, sessionId)| > maxLength
            && |BuildCompletionComments(summary, items, sessionId, maxLength)| == 1
  {
    hide Suffix, BuildCompletionComments, FullPlanStatus, AbbreviatedPlanStatus, Footer;
    var summary := "Done." + Blanks(maxLength);
    BlanksTrim("Done.", maxLength);
    SingleCommentByLength(summary, items, sessionId, maxLength);
  }

  /** With room for header, suffix and markers, and if no turn went looking for the end of a code block,
      every completion comment respects the maximum length. */
  lemma CompletionBudget(summary: string, items: seq<PlanItem>, sessionId: Option<string>, maxLength: int)
    requires var room := SummaryLength(items, sessionId, maxLength);
             room >= LEAST_MAX_LENGTH && NoneAfterFence(Branches(summary, room - COMMENT_OVERHEAD,
                 MAX_COMPLETION_COMMENTS))
    ensures var r := BuildCompletionComments(summary, items, sessionId, maxLength);
            forall i | 0 <= i < |r| :: |r[i].body| <= maxLength
  {
    hide Branches, Suffix, FullComment, SplitContentIntoComments, PartMarker, StripPartMarker, RemoveAll;
    var suffix := Suffix(items, sessionId);
    var room := SummaryLength(items, sessionId, maxLength);
    var parts := SplitContentIntoComments(summary, room, MAX_COMPLETION_COMMENTS);
    assert Pow10(2) == 100;
    LengthBudget(summary, room, MAX_COMPLETION_COMMENTS, 2);
    PartsAreNumbered(summary, room, MAX_COMPLETION_COMMENTS);
    forall i | 0 <= i < |parts| ensures |Rebuilt(parts[i].body, i, |parts|, suffix)| <= maxLength {
      if |parts| > 1 { PartMarkerLength(i + 1, |parts|, 2); }
    }
  }

  // ---------------------------------------------------------------------------
  // Nothing of the summary is lost on the way
  // ---------------------------------------------------------------------------

  lemma TurnParts(remaining: string, effective: int)
    ensures var t := Turn(remaining, effective);
            && |t.piece| <= |remaining| && t.piece == remaining[..|t.piece|]
            && |t.rest| <= |remaining| && t.rest == remaining[|remaining| - |t.rest|..]
  {
    hide Turn, Blank, Fits, TurnPoint, TrimStart, TrimEnd, FindSafeSplitPoint;
    if Fits(remaining, effective) {
      TurnWhole(remaining, effective);
    } else {
      TurnCuts(remaining, effective);
    }
  }

  /** Every piece is a stretch of the text, and the first one begins it. */
  lemma {:induction false} PiecesAreParts(remaining: string, effective: int, slots: int, k: nat) returns (i: nat,
      j: nat)
    requires k < |Pieces(remaining, effective, slots).0|
    ensures i <= j <= |remaining| && Pieces(remaining, effective, slots).0[k] == remaining[i..j]
    ensures k == 0 ==> i == 0
    decreases k
  {
    hide Turn;
    var t := Turn(remaining, effective);
    TurnParts(remaining, effective);
    if k == 0 {
      i, j := 0, |t.piece|;
    } else {
      i, j := PiecesAreParts(t.rest, effective, slots - 1, k - 1);
      var n := |remaining| - |t.rest|;
      SliceOfSlice(remaining, n, |remaining|, i, j);
      assert remaining[n..|remaining|] == remaining[n..];
      i, j := n + i, n + j;
    }
  }

  lemma SliceOfSlice<T>(s: seq<T>, i: nat, j: nat, a: nat, b: nat)
    requires i <= j <= |s| && a <= b <= j - i
    ensures s[i..j][a..b] == s[i + a..i + b]
  {
    forall k | 0 <= k < b - a ensures s[i..j][a..b][k] == s[i + a..i + b][k] {
      assert s[i..j][a..b][k] == s[i..j][a + k] == s[i + a + k];
    }
  }

  lemma FreePart(s: string, i: nat, j: nat, pattern: string)
    requires Free(s, pattern) && i <= j <= |s|
    ensures Free(s[i..j], pattern)
  {
    forall p | 0 <= p < j - i ensures !At(s[i..j], p, pattern) {
      assert !At(s, i + p, pattern);
      if p + |pattern| <= j - i {
        SliceOfSlice(s, i, j, p, p + |pattern|);
      }
    }
  }

  /** A part with all its markers around `core`, which is the header and the piece of the summary. */
  function Assembled(core: string, i: nat, n: nat, suffix: string): string {
    core + (if i == n - 1 then suffix else "")
    + (if n > 1 then (if i < n - 1 then CONTINUATION_MARKER else "") + PartMarker(i + 1, n) else "")
  }

  function Opening(i: nat): string {
    if i == 0 then HEADER else ""
  }

  /** What a part should hold: the header in front of the first, the suffix behind the last, the piece of
      the summary as the splitter cut it, and one set of markers. */
  function Expected(piece: string, i: nat, n: nat, suffix: string): string {
    Assembled(Opening(i) + piece, i, n, suffix)
  }

  /** Spelled out, with the part's number as digits. */
  lemma PartBody(piece: string, i: nat, n: nat, suffix: string)
    requires i < n
    ensures NumberedBody(Expected(piece, i, n, suffix),
                (if i == 0 then "## Agent Work Complete\n\n" else "") + piece + (if i == n - 1 then suffix else ""),
                i, n)
  {
    hide Decimal, NumberedBody;
    var text := (if i == 0 then "## Agent Work Complete\n\n" else "") + piece + (if i == n - 1 then suffix else "");
    DecoratedIsNumbered(text, i, n);
    Associative(text, if i < n - 1 then CONTINUATION_MARKER else "", PartMarker(i + 1, n));
    assert text + "" == text;
  }

  /** Taking the markers of one of several parts off again takes every continuation marker of the summary with them. */
  lemma MarkersComeOff(head: string, x: string, cut: string, part: nat, total: nat)
    requires total > 1 && (cut == "" || (part >= total && cut == TRUNCATION_MARKER))
    ensures RemoveAll(StripPartMarker(head + Decorated(x + cut, part, total)), CONTINUATION_MARKER)
            == RemoveAll(head + x, CONTINUATION_MARKER) + cut
  {
    hide PartMarker, StripPartMarker, RemoveAll;
    var piece, tag := x + cut, PartMarker(part, total);
    StripInvertsMarker(head + piece + CONTINUATION_MARKER, part, total);
    StripInvertsMarker(head + piece, part, total);
    Associative(head + piece, CONTINUATION_MARKER, tag);
    Associative(head, piece, CONTINUATION_MARKER + tag);
    Associative(piece, CONTINUATION_MARKER, tag);
    Associative(head, piece, tag);
    assert piece + "" == piece;
    Associative(head, x, cut);
    RemoveMarkers();
    RemoveFromMarked(head + x, CONTINUATION_MARKER);
    RemoveFromMarked(head + x, TRUNCATION_MARKER);
    assert head + x + "" == head + x;
    assert RemoveAll(head + x, CONTINUATION_MARKER) + "" == RemoveAll(head + x, CONTINUATION_MARKER);
  }

  lemma RebuiltIs(x: string, cut: string, i: nat, n: nat, suffix: string)
    requires i < n && (cut == "" || (i == n - 1 && cut == TRUNCATION_MARKER))
    ensures Rebuilt(Decorated(x + cut, i + 1, n), i, n, suffix)
            == Assembled((if n > 1 then RemoveAll(Opening(i) + x, CONTINUATION_MARKER) else Opening(i) + x) + cut,
                         i, n, suffix)
  {
    hide PartMarker, StripPartMarker, RemoveAll;
    var core := (if n > 1 then RemoveAll(Opening(i) + x, CONTINUATION_MARKER) else Opening(i) + x) + cut;
    var full := core + (if i == n - 1 then suffix else "");
    if n > 1 {
      MarkersComeOff(Opening(i), x, cut, i + 1, n);
      Associative(full, if i < n - 1 then CONTINUATION_MARKER else "", PartMarker(i + 1, n));
    } else {
      Associative(Opening(i), x, cut);
      assert full + "" == full;
    }
  }

  /** A part holds what it should exactly if it is the only one or no continuation marker occurs in its header and
      piece. */
  lemma RebuiltIsExpected(x: string, cut: string, i: nat, n: nat, suffix: string)
    requires i < n && (cut == "" || (i == n - 1 && cut == TRUNCATION_MARKER))
    ensures Rebuilt(Decorated(x + cut, i + 1, n), i, n, suffix) == Expected(x + cut, i, n, suffix)
            <==> n == 1 || Free(Opening(i) + x, CONTINUATION_MARKER)
  {
    hide PartMarker, StripPartMarker, RemoveAll, Free, Rebuilt;
    RebuiltIs(x, cut, i, n, suffix);
    RemovalLaw(Opening(i) + x, CONTINUATION_MARKER);
    Associative(Opening(i), x, cut);
  }

  /** The pieces the summary is split into, and what exceeds ten of them. */
  function SummaryPieces(summary: string, items: seq<PlanItem>, sessionId: Option<string>,
      maxLength: int): (seq<string>, string) {
    Pieces(summary, SummaryLength(items, sessionId, maxLength) - COMMENT_OVERHEAD, MAX_COMPLETION_COMMENTS)
  }

  /** The parts hold the pieces of the summary, in order and intact, so by `CommentSplitter.PiecesConserve` all of it
      but white space and what exceeds ten comments: exactly where the part is the only one or the summary's own text
      does not contain the continuation marker, which is removed from it as well. */
  lemma SummaryIsPreserved(summary: string, items: seq<PlanItem>, sessionId: Option<string>, maxLength: int,
                           pieces: seq<string>, left: string, i: nat)
    requires |FullComment(summary, items, sessionId)| > maxLength
    requires |HEADER + summary + Suffix(items, sessionId)| > maxLength
    requires SummaryPieces(summary, items, sessionId, maxLength) == (pieces, left) && i < |pieces|
    ensures var r := BuildCompletionComments(summary, items, sessionId, maxLength);
            && |r| == |pieces| && r[i].partNumber == i + 1 && r[i].totalParts == |r|
            && (r[i].body == Expected(MarkTruncated(pieces, left)[i], i, |pieces|, Suffix(items, sessionId))
                <==> |pieces| == 1 || Free(Opening(i) + pieces[i], CONTINUATION_MARKER))
  {
    hide Suffix, FullComment, Rebuilt, Expected, Decorated, Free, Pieces;
    SplittingPathSplits(summary, items, sessionId, maxLength);
    var cut := if left != "" && i == |pieces| - 1 then TRUNCATION_MARKER else "";
    assert pieces[i] + "" == pieces[i];
    assert MarkTruncated(pieces, left)[i] == pieces[i] + cut;
    RebuiltIsExpected(pieces[i], cut, i, |pieces|, Suffix(items, sessionId));
  }

  /** A summary in which, behind the header, the continuation marker does not occur is preserved in every part. */
  lemma FreeSummaryIsPreserved(summary: string, items: seq<PlanItem>, sessionId: Option<string>, maxLength: int,
                               pieces: seq<string>, left: string, i: nat)
    requires Free(HEADER + summary, CONTINUATION_MARKER)
    requires |FullComment(summary, items, sessionId)| > maxLength
    requires |HEADER + summary + Suffix(items, sessionId)| > maxLength
    requires SummaryPieces(summary, items, sessionId, maxLength) == (pieces, left) && i < |pieces|
    ensures var r := BuildCompletionComments(summary, items, sessionId, maxLength);
            && |r| == |pieces|
            && r[i].body == Expected(MarkTruncated(pieces, left)[i], i, |pieces|, Suffix(items, sessionId))
  {
    hide Free, Pieces, Suffix, FullComment, BuildCompletionComments, Expected;
    var room := SummaryLength(items, sessionId, maxLength);
    var from, to := PiecesAreParts(summary, room - COMMENT_OVERHEAD, MAX_COMPLETION_COMMENTS, i);
    PieceIsFree(summary, from, to, i == 0);
    SummaryIsPreserved(summary, items, sessionId, maxLength, pieces, left, i);
  }

  /** The continuation marker without the line ends it begins with. */
  const CONTINUED := "*...continued in next comment*"

  /** A summary that begins like that, right behind the line ends of the header, goes on with letters, and does not fit
      into one comment. */
  function ContinuedSummary(n: nat): string {
    CONTINUED + Letters(n)
  }

  lemma ContinuedSummaryFacts(n: nat)
    requires n > 0
    ensures var s := ContinuedSummary(n);
            |s| == |CONTINUED| + n && NoFence(s) && TrimEnd(s) == s
            && forall k | |CONTINUED| <= k < |s| :: s[k] == 'a'
  {
    hide NoFence, TrimEnd, At;
    var s := ContinuedSummary(n);
    forall p | 0 <= p < |s|
      ensures !At(s, p, FENCE)
    {
      NotAt(s, p, FENCE);
    }
    SolidAt(s, |s| - 1);
    TrimStep(s);
    assert NoFence(s) by { NoFenceIs(s); }
  }

  lemma NoFenceIs(s: string)
    requires forall p | 0 <= p < |s| :: !At(s, p, FENCE)
    ensures NoFence(s)
  {
  }

  lemma SolidTrim(s: string, p: nat)
    requires 0 < p <= |s| && s[p - 1] == 'a'
    ensures TrimEnd(s[..p]) == s[..p]
  {
    hide TrimEnd;
    SolidAt(s, p - 1);
    TrimStep(s[..p]);
  }

  lemma ContinuedTurn(n: nat, effective: int)
    requires effective >= 200 && n >= effective
    ensures var s := ContinuedSummary(n);
            var p := TurnPoint(s, effective);
            |CONTINUED| < p <= |s| && Turn(s, effective).piece == s[..p]
  {
    hide FindSafeSplitPoint, ContinuedSummary, TrimEnd, TrimStart, TurnPoint, Turn;
    var s := ContinuedSummary(n);
    ContinuedSummaryFacts(n);
    CutAt(s, effective);
    SplitPointIsFar(s, effective - |CONTINUATION_MARKER|);
    assert !Fits(s, effective);
    TurnCuts(s, effective);
    hide NoFence, Blank, Fits;
    SolidTrim(s, TurnPoint(s, effective));
  }

  /** The first piece of such a summary holds all of its beginning. */
  lemma ContinuedPiece(n: nat, effective: int, slots: int)
    requires effective >= 200 && n >= effective && slots >= 1
    ensures var s := ContinuedSummary(n);
            var (pieces, left) := Pieces(s, effective, slots);
            pieces != [] && |CONTINUED| < |pieces[0]| <= |s| && pieces[0] == s[..|pieces[0]|]
  {
    hide Turn, TurnPoint, ContinuedSummary, Pieces, NoFence, TrimEnd;
    ContinuedSummaryFacts(n);
    ContinuedTurn(n, effective);
    PiecesStep(ContinuedSummary(n), effective, slots);
  }

  lemma MarkerIs()
    ensures CONTINUATION_MARKER == "\n\n" + CONTINUED && HEADER == HEADER[..|HEADER| - 2] + "\n\n"
    ensures |HEADER| - 2 < |CONTINUATION_MARKER|
  {
  }

  lemma HeaderCompletes(piece: string)
    requires |CONTINUED| <= |piece| && piece[..|CONTINUED|] == CONTINUED
    ensures HEADER + piece == HEADER[..|HEADER| - 2] + (CONTINUATION_MARKER + piece[|CONTINUED|..])
  {
    MarkerIs();
    Completes(HEADER[..|HEADER| - 2], "\n\n", CONTINUED, piece[|CONTINUED|..]);
    assert piece == CONTINUED + piece[|CONTINUED|..];
  }

  lemma Completes(a: string, b: string, c: string, d: string)
    ensures (a + b) + (c + d) == a + ((b + c) + d)
  {
  }

  lemma MarkerStarts(rest: string)
    ensures var t := CONTINUATION_MARKER + rest; |t| >= 2 && t[0] == t[1] == '\n'
  {
  }

  /** What is removed from the header in front of such a piece. */
  lemma ContinuedIsRemoved(piece: string)
    requires |CONTINUED| <= |piece| && piece[..|CONTINUED|] == CONTINUED
    requires forall k | |CONTINUED| <= k < |piece| :: piece[k] == 'a'
    ensures RemoveAll(HEADER + piece, CONTINUATION_MARKER) == HEADER[..|HEADER| - 2] + piece[|CONTINUED|..]
    ensures !Free(HEADER + piece, CONTINUATION_MARKER)
  {
    hide RemoveAll, Free;
    var front, rest := HEADER[..|HEADER| - 2], piece[|CONTINUED|..];
    HeaderCompletes(piece);
    MarkerStarts(rest);
    RemoveFromMarked(front, CONTINUATION_MARKER + rest);
    RemovalLaw(front, CONTINUATION_MARKER);
    RemovalLaw(rest, CONTINUATION_MARKER);
    RemovalLaw(HEADER + piece, CONTINUATION_MARKER);
    LettersAreFree(rest);
    MarkerIs();
    ShortIsFree(front);
    FirstIsRemoved(rest);
    assert |front + rest| < |HEADER + piece|;
  }

  lemma LettersAreFree(s: string)
    requires forall k | 0 <= k < |s| :: s[k] == 'a'
    ensures Free(s, CONTINUATION_MARKER)
  {
    hide At;
    forall p | 0 <= p < |s|
      ensures !At(s, p, CONTINUATION_MARKER)
    {
      NotAt(s, p, CONTINUATION_MARKER);
    }
  }

  lemma ShortIsFree(s: string)
    requires |s| < |CONTINUATION_MARKER|
    ensures Free(s, CONTINUATION_MARKER)
  {
  }

  lemma FirstIsRemoved(rest: string)
    ensures RemoveAll(CONTINUATION_MARKER + rest, CONTINUATION_MARKER) == RemoveAll(rest, CONTINUATION_MARKER)
  {
    var s := CONTINUATION_MARKER + rest;
    assert s[0..|CONTINUATION_MARKER|] == CONTINUATION_MARKER && s[|CONTINUATION_MARKER|..] == rest;
  }

  /** The summary's own text can be lost, for every plan: where it completes the continuation marker behind the header's
      line ends, the first part has neither those nor the summary's beginning. */
  lemma ContinuedIsLost(items: seq<PlanItem>, sessionId: Option<string>, maxLength: nat,
                        pieces: seq<string>, left: string)
    requires SummaryLength(items, sessionId, maxLength) >= 300
    requires SummaryPieces(ContinuedSummary(maxLength), items, sessionId, maxLength) == (pieces, left)
    ensures var r := BuildCompletionComments(ContinuedSummary(maxLength), items, sessionId, maxLength);
            var suffix := Suffix(items, sessionId);
            && |r| == |pieces| > 1 && |CONTINUED| <= |pieces[0]|
            && r[0].body == Assembled(HEADER[..|HEADER| - 2] + pieces[0][|CONTINUED|..], 0, |pieces|, suffix)
            && r[0].body != Expected(MarkTruncated(pieces, left)[0], 0, |pieces|, suffix)
  {
    hide Suffix, FullComment, Pieces, ContinuedSummary, BuildCompletionComments, Expected, Assembled, Free, RemoveAll;
    var summary := ContinuedSummary(maxLength);
    ContinuedSummaryFacts(maxLength);
    ContinuedPathSplits(summary, items, sessionId, maxLength);
    SingleCommentByLength(summary, items, sessionId, maxLength);
    ContinuedPiece(maxLength, SummaryLength(items, sessionId, maxLength) - COMMENT_OVERHEAD, MAX_COMPLETION_COMMENTS);
    ContinuedBegins(maxLength, pieces[0]);
    ContinuedIsRemoved(pieces[0]);
    SummaryIsPreserved(summary, items, sessionId, maxLength, pieces, left, 0);
    FirstBody(summary, items, sessionId, maxLength, pieces, left);
  }

  lemma ContinuedBegins(n: nat, piece: string)
    requires |CONTINUED| <= |piece| <= |ContinuedSummary(n)| && piece == ContinuedSummary(n)[..|piece|]
    ensures piece[..|CONTINUED|] == CONTINUED && forall k | |CONTINUED| <= k < |piece| :: piece[k] == 'a'
  {
  }

  lemma ContinuedPathSplits(summary: string, items: seq<PlanItem>, sessionId: Option<string>, maxLength: nat)
    requires |summary| > maxLength
    ensures |FullComment(summary, items, sessionId)| > maxLength
    ensures |HEADER + summary + Suffix(items, sessionId)| > maxLength
    ensures SummaryLength(items, sessionId, maxLength) <= maxLength
  {
    hide Suffix, FullPlanStatus, Footer;
  }

  /** The first of several parts, whatever the summary. */
  lemma FirstBody(summary: string, items: seq<PlanItem>, sessionId: Option<string>, maxLength: int,
                  pieces: seq<string>, left: string)
    requires |FullComment(summary, items, sessionId)| > maxLength
    requires |HEADER + summary + Suffix(items, sessionId)| > maxLength
    requires SummaryPieces(summary, items, sessionId, maxLength) == (pieces, left) && |pieces| > 1
    ensures var r := BuildCompletionComments(summary, items, sessionId, maxLength);
            && |r| == |pieces|
            && r[0].body == Assembled(RemoveAll(HEADER + pieces[0], CONTINUATION_MARKER), 0, |pieces|,
                                      Suffix(items, sessionId))
  {
    hide Suffix, FullComment, Rebuilt, Assembled, Decorated, Pieces, RemoveAll;
    SplittingPathSplits(summary, items, sessionId, maxLength);
    RebuiltIs(pieces[0], "", 0, |pieces|, Suffix(items, sessionId));
    assert pieces[0] + "" == pieces[0];
    assert MarkTruncated(pieces, left)[0] == pieces[0];
    var bare := RemoveAll(HEADER + pieces[0], CONTINUATION_MARKER);
    assert bare + "" == bare;
  }

  lemma PieceIsFree(summary: string, i: nat, j: nat, first: bool)
    requires Free(HEADER + summary, CONTINUATION_MARKER) && i <= j <= |summary|
    requires first ==> i == 0
    ensures Free((if first then HEADER else "") + summary[i..j], CONTINUATION_MARKER)
  {
    hide Free;
    var all := HEADER + summary;
    if first {
      FreePart(all, 0, |HEADER| + j, CONTINUATION_MARKER);
      assert all[0..|HEADER| + j] == HEADER + summary[i..j];
    } else {
      FreePart(all, |HEADER| + i, |HEADER| + j, CONTINUATION_MARKER);
      assert all[|HEADER| + i..|HEADER| + j] == summary[i..j] == "" + summary[i..j];
    }
  }
}
