/** Splitting a long text into several comments, at a boundary that spares code blocks where the
    code finds one. Strings are sequences of JavaScript code units. */
module CommentSplitter {
  import opened JsText
  import opened FenceScan

  const TRUNCATION_MARKER := "\n\n... (content truncated)"
  const CONTINUATION_MARKER := "\n\n*...continued in next comment*"
  const COMMENT_OVERHEAD := 100
  const MAX_COMPLETION_COMMENTS := 10

  /** The least maximum length with room for at least one character between the markers. */
  const LEAST_MAX_LENGTH := 133

  // ---------------------------------------------------------------------------
  // JavaScript's searching and slicing
  // ---------------------------------------------------------------------------

  function LastAt(s: string, pattern: string, from: int): (p: int)
    ensures p == -1 || (0 <= p <= from && At(s, p, pattern))
    decreases from + 1
  {
    if from < 0 then -1 else if At(s, from, pattern) then from else LastAt(s, pattern, from - 1)
  }

  /** `s.lastIndexOf(pattern, from)`: a negative start counts as zero. */
  function LastIndexOf(s: string, pattern: string, from: int): int {
    LastAt(s, pattern, if from < 0 then 0 else from)
  }

  function FirstAt(s: string, pattern: string, from: nat): (p: int)
    ensures p == -1 || (from <= p && At(s, p, pattern))
    decreases |s| - from
  {
    if from >= |s| then -1 else if At(s, from, pattern) then from else FirstAt(s, pattern, from + 1)
  }

  /** `s.indexOf(pattern, from)`, for a pattern that is not empty. */
  function IndexOf(s: string, pattern: string, from: int): int {
    FirstAt(s, pattern, if from < 0 then 0 else from)
  }

  lemma {:induction false} LastAtIsLast(s: string, pattern: string, from: int)
    ensures forall q | LastAt(s, pattern, from) < q <= from :: !At(s, q, pattern)
    decreases from + 1
  {
    if from >= 0 && !At(s, from, pattern) {
      LastAtIsLast(s, pattern, from - 1);
    }
  }

  lemma {:induction false} FirstAtIsFirst(s: string, pattern: string, from: nat)
    ensures var p := FirstAt(s, pattern, from);
            forall q | from <= q < (if p == -1 then |s| else p) :: !At(s, q, pattern)
    decreases |s| - from
  {
    if from < |s| && !At(s, from, pattern) {
      FirstAtIsFirst(s, pattern, from + 1);
    }
  }

  /** Where `slice` cuts: positions before the start count from the end. */
  function Cut(s: string, p: int): (n: nat)
    ensures n <= |s|
  {
    if p < 0 then (if |s| + p < 0 then 0 else |s| + p) else if p > |s| then |s| else p
  }

  // ---------------------------------------------------------------------------
  // Where to split
  // ---------------------------------------------------------------------------

  datatype Branch = Whole | Paragraph | Sentence | Newline | Word | AfterFence | Hard

  /** The last occurrence of a boundary up to the target, and whether it will do: beyond the given tenths of the
      target and outside every code block. */
  function Boundary(text: string, target: int, pattern: string, tenths: int): (int, bool) {
    var p := LastIndexOf(text, pattern, target);
    (p, 10 * p > tenths * target && !InsideAt(text, p))
  }

  /** Inside a code block: the line end after the next fence, if that begins soon enough. */
  function BlockEnd(text: string, target: int): (int, bool) {
    var fence := IndexOf(text, FENCE, target);
    var after := IndexOf(text, "\n", fence + 3);
    (if after != -1 then after else fence + 3, InsideAt(text, target) && fence != -1 && 2 * fence < 3 * target)
  }

  /** The split point, and the branch that chose it. */
  function FindSafeSplitPoint(text: string, target: int): (int, Branch) {
    if |text| <= target then (|text|, Whole)
    else
      var (paragraph, isParagraph) := Boundary(text, target, "\n\n", 5);
      if isParagraph then (paragraph, Paragraph)
      else
        var (sentence, isSentence) := Boundary(text, target, ". ", 5);
        if isSentence then (sentence + 1, Sentence)
        else
          var (newline, isNewline) := Boundary(text, target, "\n", 5);
          if isNewline then (newline, Newline)
          else
            var (word, isWord) := Boundary(text, target, " ", 3);
            if isWord then (word, Word)
            else
              var (end, isEnd) := BlockEnd(text, target);
              if isEnd then (end, AfterFence) else (target, Hard)
  }

  /** The branches that pick a boundary outside every code block. */
  predicate Clean(b: Branch) {
    b.Paragraph? || b.Sentence? || b.Newline? || b.Word?
  }

  lemma AtItsFirst(s: string, p: int, pattern: string)
    requires At(s, p, pattern) && pattern != ""
    ensures 0 <= p < |s| && s[p] == pattern[0]
  {
    assert s[p..p + |pattern|][0] == pattern[0];
  }

  lemma BoundaryFacts(text: string, target: int, pattern: string, tenths: int)
    requires 1 <= target < |text| && tenths >= 1 && pattern != "" && pattern[0] != '`'
    requires Boundary(text, target, pattern, tenths).1
    ensures var p := Boundary(text, target, pattern, tenths).0;
            && 1 <= p <= target && text[p] == pattern[0]
            && Lands(text, p) && !ScanEnd(text[..p], false)
  {
    hide Lands, ScanEnd, ScanFrom, InsideAt, At, Boundary;
    var p := Boundary(text, target, pattern, tenths).0;
    BoundaryPoint(text, target, pattern, tenths);
    AtItsFirst(text, p, pattern);
    OutsideBeforeNonTick(text, p);
  }

  lemma BoundaryPoint(text: string, target: int, pattern: string, tenths: int)
    requires target >= 1 && tenths >= 1 && Boundary(text, target, pattern, tenths).1
    ensures var p := Boundary(text, target, pattern, tenths).0;
            1 <= p <= target && At(text, p, pattern) && !InsideAt(text, p)
  {
    hide At, LastAt, InsideAt;
    assert tenths * target >= tenths;
  }

  lemma OutsideBeforeNonTick(text: string, p: nat)
    requires p < |text| && text[p] != '`' && !InsideAt(text, p)
    ensures Lands(text, p) && !ScanEnd(text[..p], false)
  {
    hide Lands, ScanEnd, ScanFrom;
    LandsBeforeNonTick(text, p);
    assert text[0..] == text && text[0..p] == text[..p];
    ScanIsPrefixReading(text, 0, false, p);
  }

  lemma BlockEndFacts(text: string, target: int)
    requires 1 <= target < |text| && BlockEnd(text, target).1
    ensures target < BlockEnd(text, target).0 <= |text|
  {
  }

  lemma SplitPointBounds(text: string, target: int)
    requires 1 <= target < |text|
    ensures var (p, branch) := FindSafeSplitPoint(text, target);
            && !branch.Whole? && 1 <= p <= |text|
            && (!branch.AfterFence? ==> p <= target + 1)
  {
    hide Boundary, BlockEnd;
    if Boundary(text, target, "\n\n", 5).1 { BoundaryFacts(text, target, "\n\n", 5); }
    else if Boundary(text, target, ". ", 5).1 { BoundaryFacts(text, target, ". ", 5); }
    else if Boundary(text, target, "\n", 5).1 { BoundaryFacts(text, target, "\n", 5); }
    else if Boundary(text, target, " ", 3).1 { BoundaryFacts(text, target, " ", 3); }
    else if BlockEnd(text, target).1 { BlockEndFacts(text, target); }
  }

  lemma AfterPeriod(text: string, at: nat)
    requires at < |text| && text[at] == '.' && Lands(text, at) && !ScanEnd(text[..at], false)
    ensures Lands(text, at + 1) && !ScanEnd(text[..at + 1], false)
  {
    var u := text[..at + 1];
    LandsBeforeNonTick(text, at);
    LandsBeforeNonTick(u, at);
    assert u[..at] == text[..at] && u[at..] == ['.'];
    CutEnd(u, at, false);
    assert ScanEnd(['.'], false) == ScanEnd(['.'][1..], false) == false;
  }

  /** The clean branches cut where the scan lands, outside a code block. */
  lemma CleanSplit(text: string, target: int)
    requires 1 <= target < |text| && Clean(FindSafeSplitPoint(text, target).1)
    ensures var p := FindSafeSplitPoint(text, target).0;
            1 <= p <= |text| && Lands(text, p) && !ScanEnd(text[..p], false)
  {
    hide Boundary, BlockEnd, Lands, ScanEnd;
    if Boundary(text, target, "\n\n", 5).1 {
      BoundaryFacts(text, target, "\n\n", 5);
    } else if Boundary(text, target, ". ", 5).1 {
      BoundaryFacts(text, target, ". ", 5);
      AfterPeriod(text, Boundary(text, target, ". ", 5).0);
    } else if Boundary(text, target, "\n", 5).1 {
      BoundaryFacts(text, target, "\n", 5);
    } else {
      BoundaryFacts(text, target, " ", 3);
    }
  }

  // ---------------------------------------------------------------------------
  // Which boundary is chosen
  // ---------------------------------------------------------------------------

  /** The last `pattern` that begins at or before the target begins at `p`, beyond the given tenths of the
      target, and the scan finds `p` outside every code block. */
  ghost predicate Usable(text: string, target: int, pattern: string, tenths: int, p: int) {
    && 0 <= p <= target && At(text, p, pattern) && (forall q | p < q <= target :: !At(text, q, pattern))
    && 10 * p > tenths * target && !InsideAt(text, p)
  }

  ghost predicate NoneUsable(text: string, target: int, pattern: string, tenths: int) {
    forall p :: !Usable(text, target, pattern, tenths, p)
  }

  lemma BoundaryIsUsable(text: string, target: int, pattern: string, tenths: int)
    requires target >= 1 && tenths >= 1
    ensures var (p, found) := Boundary(text, target, pattern, tenths);
            if found then Usable(text, target, pattern, tenths, p) else NoneUsable(text, target, pattern, tenths)
  {
    hide At, LastAt, InsideAt;
    var (p, found) := Boundary(text, target, pattern, tenths);
    LastAtIsLast(text, pattern, target);
    assert tenths * target > 0;
    if !found {
      forall q
        ensures !Usable(text, target, pattern, tenths, q)
      {
        if Usable(text, target, pattern, tenths, q) { OnlyTheLast(text, target, pattern, tenths, p, q); }
      }
    }
  }

  lemma OnlyTheLast(text: string, target: int, pattern: string, tenths: int, p: int, q: int)
    requires p == -1 || (0 <= p <= target && At(text, p, pattern))
    requires forall x | p < x <= target :: !At(text, x, pattern)
    requires Usable(text, target, pattern, tenths, q)
    ensures q == p
  {
    hide At, InsideAt;
  }

  lemma UsableIsUnique(text: string, target: int, pattern: string, tenths: int, p: int, q: int)
    requires Usable(text, target, pattern, tenths, p) && Usable(text, target, pattern, tenths, q)
    ensures p == q
  {
    hide At, InsideAt;
  }

  /** The boundaries in order of preference, each taken exactly if there is a usable one and no better kind has one;
      a sentence is cut behind its period. */
  lemma SplitPreference(text: string, target: int, p: int)
    requires 1 <= target < |text|
    ensures var (split, branch) := FindSafeSplitPoint(text, target);
            var paragraph, sentence := NoneUsable(text, target, "\n\n", 5), NoneUsable(text, target, ". ", 5);
            var newline, word := NoneUsable(text, target, "\n", 5), NoneUsable(text, target, " ", 3);
            && ((split, branch) == (p, Paragraph) <==> Usable(text, target, "\n\n", 5, p))
            && ((split, branch) == (p + 1, Sentence) <==> paragraph && Usable(text, target, ". ", 5, p))
            && ((split, branch) == (p, Newline) <==> paragraph && sentence && Usable(text, target, "\n", 5, p))
            && ((split, branch) == (p, Word) <==> paragraph && sentence && newline && Usable(text, target, " ", 3, p))
            && (branch == AfterFence || branch == Hard <==> paragraph && sentence && newline && word)
  {
    hide Boundary, BlockEnd, Usable;
    UsableAt(text, target, "\n\n", 5, p);
    UsableAt(text, target, ". ", 5, p);
    UsableAt(text, target, "\n", 5, p);
    UsableAt(text, target, " ", 3, p);
  }

  lemma UsableAt(text: string, target: int, pattern: string, tenths: int, p: int)
    requires target >= 1 && tenths >= 1
    ensures Boundary(text, target, pattern, tenths) == (p, true) <==> Usable(text, target, pattern, tenths, p)
    ensures Boundary(text, target, pattern, tenths).1 <==> !NoneUsable(text, target, pattern, tenths)
  {
    hide Boundary, Usable;
    BoundaryIsUsable(text, target, pattern, tenths);
    var (q, found) := Boundary(text, target, pattern, tenths);
    if found && Usable(text, target, pattern, tenths, p) {
      UsableIsUnique(text, target, pattern, tenths, p, q);
    }
  }

  /** None of the four boundaries is usable. */
  ghost predicate NoBoundary(text: string, target: int) {
    && NoneUsable(text, target, "\n\n", 5) && NoneUsable(text, target, ". ", 5)
    && NoneUsable(text, target, "\n", 5) && NoneUsable(text, target, " ", 3)
  }

  /** The next fence at or after the target begins at `fence`, and the next line end behind it is at `end`; where there
      is none, these are not inside the text. */
  ghost predicate NextFence(text: string, target: nat, fence: nat, end: nat) {
    && target <= fence && (forall q | target <= q < fence && q < |text| :: !At(text, q, FENCE))
    && (fence < |text| ==>
          && At(text, fence, FENCE) && fence + 3 <= end <= |text| && (end < |text| ==> At(text, end, "\n"))
          && forall q | fence + 3 <= q < end :: !At(text, q, "\n"))
  }

  /** The target is inside a code block, by the code's own check, and the next fence begins soon enough. */
  predicate GoesToFence(text: string, target: nat, fence: nat) {
    InsideAt(text, target) && fence < |text| && 2 * fence < 3 * target
  }

  /** Where the line of the next fence ends: behind the fence itself if no line end follows. */
  function FenceLineEnd(text: string, fence: nat, end: nat): nat {
    if end < |text| then end else fence + 3
  }

  /** Without a usable boundary: from a target inside a code block to the line end behind the next fence, or to the
      end of that fence if no line end follows, provided the fence begins before one and a half times
      the target; otherwise to the target itself. */
  lemma LastResorts(text: string, target: int, fence: nat, end: nat)
    requires 1 <= target < |text| && !Clean(FindSafeSplitPoint(text, target).1) && NextFence(text, target, fence, end)
    ensures FindSafeSplitPoint(text, target) ==
            if GoesToFence(text, target, fence) then (FenceLineEnd(text, fence, end), AfterFence) else (target, Hard)
  {
    hide Boundary, At, FirstAt, InsideAt;
    FirstAtIsFirst(text, FENCE, target);
    FirstAtIsFirst(text, "\n", fence + 3);
    FirstAtInside(text, FENCE, target);
    FirstAtInside(text, "\n", fence + 3);
  }

  lemma NoBoundaryIsUnclean(text: string, target: int)
    requires 1 <= target < |text|
    ensures Clean(FindSafeSplitPoint(text, target).1) <==> !NoBoundary(text, target)
  {
    hide FindSafeSplitPoint, NoneUsable, Usable;
    SplitPreference(text, target, 0);
    SplitPointBounds(text, target);
  }

  lemma FirstAtInside(s: string, pattern: string, from: nat)
    requires pattern != ""
    ensures FirstAt(s, pattern, from) < |s|
  {
    hide FirstAt;
    if FirstAt(s, pattern, from) != -1 {
      AtItsFirst(s, FirstAt(s, pattern, from), pattern);
    }
  }

  // ---------------------------------------------------------------------------
  // The loop
  // ---------------------------------------------------------------------------

  /** The length allowed for the next piece: less room if a continuation marker must follow. */
  function PieceLength(remaining: string, effective: int): int {
    effective - (if |remaining| > effective then |CONTINUATION_MARKER| else 0)
  }

  predicate Fits(remaining: string, effective: int) {
    |remaining| <= PieceLength(remaining, effective)
  }

  /** Where a turn cuts a text that does not fit. */
  function TurnPoint(remaining: string, effective: int): (p: nat)
    ensures p <= |remaining|
  {
    Cut(remaining, FindSafeSplitPoint(remaining, PieceLength(remaining, effective)).0)
  }

  /** What one turn of the loop takes, what then remains, and how it split. */
  datatype Taken = Taken(piece: string, rest: string, branch: Branch)

  function Turn(remaining: string, effective: int): Taken {
    if Fits(remaining, effective) then Taken(remaining, "", Whole)
    else
      var p := TurnPoint(remaining, effective);
      Taken(TrimEnd(remaining[..p]), TrimStart(remaining[p..]),
            FindSafeSplitPoint(remaining, PieceLength(remaining, effective)).1)
  }

  /** The pieces that up to `slots` turns take, and what they leave. */
  function Pieces(remaining: string, effective: int, slots: int): (seq<string>, string)
    decreases if slots < 0 then 0 else slots
  {
    if remaining == "" || slots <= 0 then ([], remaining)
    else
      var turn := Turn(remaining, effective);
      var (more, left) := Pieces(turn.rest, effective, slots - 1);
      ([turn.piece] + more, left)
  }

  /** The branches those turns used. */
  function Branches(remaining: string, effective: int, slots: int): seq<Branch>
    decreases if slots < 0 then 0 else slots
  {
    if remaining == "" || slots <= 0 then []
    else
      var turn := Turn(remaining, effective);
      [turn.branch] + Branches(turn.rest, effective, slots - 1)
  }

  function Join(pieces: seq<string>): string {
    if pieces == [] then "" else pieces[0] + Join(pieces[1..])
  }

  // ---------------------------------------------------------------------------
  // The comments
  // ---------------------------------------------------------------------------

  datatype CommentChunk = CommentChunk(body: string, partNumber: int, totalParts: int)

  function Digit(d: nat): char
    requires d < 10
  {
    ('0' as int + d) as char
  }

  function Decimal(n: nat): (s: string)
    ensures s != [] && forall i | 0 <= i < |s| :: '0' <= s[i] <= '9'
  {
    if n < 10 then [Digit(n)] else Decimal(n / 10) + [Digit(n % 10)]
  }

  const PART_PREFIX := "\n\n---\n*Part "

  function PartMarker(part: nat, total: nat): string {
    PART_PREFIX + Decimal(part) + "/" + Decimal(total) + "*"
  }

  /** A piece with the markers that follow it. */
  function Decorated(piece: string, part: nat, total: nat): string {
    if total <= 1 then piece
    else piece + (if part < total then CONTINUATION_MARKER else "") + PartMarker(part, total)
  }

  function MarkTruncated(pieces: seq<string>, left: string): (marked: seq<string>)
    ensures |marked| == |pieces|
  {
    if left != "" && pieces != [] then pieces[..|pieces| - 1] + [pieces[|pieces| - 1] + TRUNCATION_MARKER] else pieces
  }

  function Numbered(pieces: seq<string>): seq<CommentChunk> {
    seq(|pieces|, i requires 0 <= i < |pieces| => CommentChunk(Decorated(pieces[i], i + 1, |pieces|), i + 1, |pieces|))
  }

  function SplitContentIntoComments(content: string, maxLength: int, maxComments: int): seq<CommentChunk> {
    var effective := maxLength - COMMENT_OVERHEAD;
    if |content| <= effective then [CommentChunk(content, 1, 1)]
    else
      var (pieces, left) := Pieces(content, effective, maxComments);
      Numbered(MarkTruncated(pieces, left))
  }

  /** The body of the loop. */
  method OneTurn(remaining: string, effective: int) returns (chunk: string, rest: string)
    ensures chunk == Turn(remaining, effective).piece && rest == Turn(remaining, effective).rest
  {
    var reserve := if |remaining| > effective then |CONTINUATION_MARKER| else 0;
    var chunkMaxLength := effective - reserve;
    if |remaining| <= chunkMaxLength {
      return remaining, "";
    }
    var (split, _) := FindSafeSplitPoint(remaining, chunkMaxLength);
    var p := Cut(remaining, split);
    chunk, rest := TrimEnd(remaining[..p]), TrimStart(remaining[p..]);
  }

  method SplitIntoComments(content: string, maxLength: int, maxComments: int) returns (result: seq<CommentChunk>)
    ensures result == SplitContentIntoComments(content, maxLength, maxComments)
  {
    hide Turn, Numbered, Pieces;
    var effective := maxLength - COMMENT_OVERHEAD;
    if |content| <= effective {
      return [CommentChunk(content, 1, 1)];
    }
    var chunks: seq<string> := [];
    var remaining := content;
    ghost var (pieces, left) := Pieces(content, effective, maxComments);
    while |remaining| > 0 && |chunks| < maxComments
      invariant |chunks| <= maxComments || chunks == []
      invariant pieces == chunks + Pieces(remaining, effective, maxComments - |chunks|).0
      invariant left == Pieces(remaining, effective, maxComments - |chunks|).1
      decreases maxComments - |chunks|
    {
      PiecesStep(remaining, effective, maxComments - |chunks|);
      var chunk, rest := OneTurn(remaining, effective);
      Associative(chunks, [chunk], Pieces(rest, effective, maxComments - |chunks| - 1).0);
      chunks := chunks + [chunk];
      remaining := rest;
    }
    PiecesStep(remaining, effective, maxComments - |chunks|);
    assert chunks + [] == chunks;
    if |remaining| > 0 && |chunks| > 0 {
      chunks := chunks[|chunks| - 1 := chunks[|chunks| - 1] + TRUNCATION_MARKER];
    }
    assert chunks == MarkTruncated(pieces, left);
    result := NumberAll(chunks);
  }

  lemma PiecesStep(remaining: string, effective: int, slots: int)
    ensures remaining == "" || slots <= 0 ==> Pieces(remaining, effective, slots) == ([], remaining)
    ensures remaining != "" && slots > 0 ==>
              var (more, left) := Pieces(Turn(remaining, effective).rest, effective, slots - 1);
              Pieces(remaining, effective, slots) == ([Turn(remaining, effective).piece] + more, left)
  {
    hide Turn;
  }

  /** The final `map`: part numbers and markers. */
  method NumberAll(chunks: seq<string>) returns (result: seq<CommentChunk>)
    ensures result == Numbered(chunks)
  {
    hide PartMarker;
    var totalParts := |chunks|;
    result := [];
    for index := 0 to totalParts
      invariant result == Numbered(chunks)[..index]
    {
      var partNumber := index + 1;
      var isLastPart := partNumber == totalParts;
      var body := chunks[index];
      if totalParts > 1 {
        if !isLastPart {
          body := chunks[index] + CONTINUATION_MARKER + PartMarker(partNumber, totalParts);
        } else {
          body := chunks[index] + "" + PartMarker(partNumber, totalParts);
        }
      }
      result := result + [CommentChunk(body, partNumber, totalParts)];
    }
  }

  // ---------------------------------------------------------------------------
  // One turn
  // ---------------------------------------------------------------------------

  /** The least room for a piece with which the loop makes progress. */
  const LEAST_EFFECTIVE := LEAST_MAX_LENGTH - COMMENT_OVERHEAD

  /** Where a turn cuts, and the white space trimmed off on both sides. */
  lemma TurnCuts(remaining: string, effective: int)
    requires !Fits(remaining, effective)
    ensures var t := Turn(remaining, effective);
            var p := TurnPoint(remaining, effective);
            && t.branch == FindSafeSplitPoint(remaining, PieceLength(remaining, effective)).1
            && |t.piece| <= p && t.piece == remaining[..|t.piece|] && Blank(remaining[|t.piece|..p])
            && |t.rest| <= |remaining| - p && t.rest == remaining[|remaining| - |t.rest|..]
            && Blank(remaining[p..|remaining| - |t.rest|])
            && t.piece == TrimEnd(remaining[..p]) && t.rest == TrimStart(remaining[p..])
  {
    hide FindSafeSplitPoint, TurnPoint, Blank, TrimStart, TrimEnd;
    var t := Turn(remaining, effective);
    var p := TurnPoint(remaining, effective);
    var a, b := remaining[..p], remaining[p..];
    assert a[|t.piece|..] == remaining[|t.piece|..p] && t.piece == a[..|t.piece|] == remaining[..|t.piece|];
    assert b[|b| - |t.rest|..] == remaining[|remaining| - |t.rest|..];
    assert b[..|b| - |t.rest|] == remaining[p..|remaining| - |t.rest|];
  }

  lemma TurnWhole(remaining: string, effective: int)
    requires Fits(remaining, effective)
    ensures Turn(remaining, effective) == Taken(remaining, "", Whole)
  {
  }

  lemma TurnConserves(remaining: string, effective: int)
    ensures NonSpace(remaining) == NonSpace(Turn(remaining, effective).piece)
        + NonSpace(Turn(remaining, effective).rest)
  {
    hide FindSafeSplitPoint, NonSpace, Blank, Turn, TurnPoint, TrimStart, TrimEnd;
    var t := Turn(remaining, effective);
    if Fits(remaining, effective) {
      TurnWhole(remaining, effective);
      NonSpaceBlank("");
    } else {
      TurnCuts(remaining, effective);
      ConserveTrimmed(remaining, |t.piece|, TurnPoint(remaining, effective), |remaining| - |t.rest|);
      assert remaining[..|t.piece|] == t.piece;
    }
  }

  lemma ConserveTrimmed(s: string, i: nat, p: nat, j: nat)
    requires i <= p <= j <= |s| && Blank(s[i..p]) && Blank(s[p..j])
    ensures NonSpace(s) == NonSpace(s[..i]) + NonSpace(s[j..])
  {
    hide NonSpace, Blank;
    NonSpaceConcat(s[..i], s[i..p]);
    NonSpaceConcat(s[..p], s[p..j]);
    NonSpaceConcat(s[..j], s[j..]);
    NonSpaceBlank(s[i..p]);
    NonSpaceBlank(s[p..j]);
    assert s[..i] + s[i..p] == s[..p] && s[..p] + s[p..j] == s[..j] && s[..j] + s[j..] == s;
  }

  /** With room between the markers, a turn takes something, leaves less, and when it cuts leaves room for a
      continuation marker, up to the one character by which the sentence branch overshoots. */
  lemma TurnBounds(remaining: string, effective: int)
    requires remaining != "" && effective >= LEAST_EFFECTIVE
    ensures var t := Turn(remaining, effective);
            && |t.rest| < |remaining|
            && (t.branch.Whole? <==> Fits(remaining, effective))
            && (t.branch.Whole? ==> t.rest == "" && |t.piece| <= effective)
            && (!t.branch.Whole? && !t.branch.AfterFence? ==> |t.piece| <= effective - |CONTINUATION_MARKER| + 1)
  {
    hide FindSafeSplitPoint;
    if !Fits(remaining, effective) {
      TurnCuts(remaining, effective);
      SplitPointBounds(remaining, PieceLength(remaining, effective));
    }
  }

  // ---------------------------------------------------------------------------
  // Conservation
  // ---------------------------------------------------------------------------

  /** Nothing but white space is dropped, whatever the lengths: what the pieces hold followed by
      what is left over is the text. */
  lemma {:induction false} PiecesConserve(remaining: string, effective: int, slots: int)
    ensures var (pieces, left) := Pieces(remaining, effective, slots);
            NonSpace(remaining) == NonSpace(Join(pieces)) + NonSpace(left)
    decreases if slots < 0 then 0 else slots
  {
    hide Turn, NonSpace;
    if remaining != "" && slots > 0 {
      var turn := Turn(remaining, effective);
      TurnConserves(remaining, effective);
      PiecesConserve(turn.rest, effective, slots - 1);
      var (more, left) := Pieces(turn.rest, effective, slots - 1);
      NonSpaceConcat(turn.piece, Join(more));
      assert ([turn.piece] + more)[1..] == more;
      Associative(NonSpace(turn.piece), NonSpace(Join(more)), NonSpace(left));
    } else {
      NonSpaceBlank("");
    }
  }

  /** With room between the markers and a comment allowed per character, nothing is left over. */
  lemma {:induction false} NothingLeftOver(remaining: string, effective: int, slots: int)
    requires effective >= LEAST_EFFECTIVE && slots >= |remaining|
    ensures Pieces(remaining, effective, slots).1 == ""
    decreases slots
  {
    hide Turn;
    if remaining != "" {
      TurnBounds(remaining, effective);
      NothingLeftOver(Turn(remaining, effective).rest, effective, slots - 1);
    }
  }

  lemma {:induction false} PieceCount(remaining: string, effective: int, slots: int)
    ensures |Pieces(remaining, effective, slots).0| <= (if slots < 0 then 0 else slots)
    ensures remaining != "" && slots > 0 ==> Pieces(remaining, effective, slots).0 != []
    decreases if slots < 0 then 0 else slots
  {
    hide Turn;
    if remaining != "" && slots > 0 {
      PieceCount(Turn(remaining, effective).rest, effective, slots - 1);
    }
  }

  /** The comments are numbered from one to their count, and are no more than allowed
      unless the text fits a single one. */
  lemma PartsAreNumbered(content: string, maxLength: int, maxComments: int)
    ensures var r := SplitContentIntoComments(content, maxLength, maxComments);
            && (forall i | 0 <= i < |r| :: r[i].partNumber == i + 1 && r[i].totalParts == |r|)
            && (|r| > 1 ==> |r| <= maxComments)
            && (|content| <= maxLength - COMMENT_OVERHEAD ==> r == [CommentChunk(content, 1, 1)])
            && (r == [] <==> |content| > maxLength - COMMENT_OVERHEAD && (maxComments <= 0 || content == ""))
  {
    hide Turn, Decorated;
    PieceCount(content, maxLength - COMMENT_OVERHEAD, maxComments);
  }

  /** The number a text of digits stands for. */
  function ValueOf(digits: string): int {
    if digits == "" then 0
    else ValueOf(digits[..|digits| - 1]) * 10 + digits[|digits| - 1] as int - '0' as int
  }

  /** A number is written as the digits that stand for it, without a leading zero. */
  lemma {:induction false} DecimalValue(n: nat)
    ensures ValueOf(Decimal(n)) == n
    ensures n > 0 ==> Decimal(n)[0] != '0'
  {
    if n >= 10 {
      DecimalValue(n / 10);
      var digits := Decimal(n);
      assert digits[..|digits| - 1] == Decimal(n / 10);
      assert digits[0] == Decimal(n / 10)[0];
    } else {
      assert ValueOf([Digit(n)]) == ValueOf("") * 10 + n;
    }
  }

  /** `body` is `text` alone if it is the only part; otherwise the continuation marker follows on all but the last
      part, and then the part's own number and the number of parts, both counted from one. */
  ghost predicate NumberedBody(body: string, text: string, i: nat, n: nat) {
    if n <= 1 then body == text
    else
      exists part, total ::
        && ValueOf(part) == i + 1 && ValueOf(total) == n
        && body == text + (if i < n - 1 then CONTINUATION_MARKER else "")
                   + ("\n\n---\n*Part " + part + "/" + total + "*")
  }

  lemma DecoratedIsNumbered(text: string, i: nat, n: nat)
    requires i < n
    ensures NumberedBody(Decorated(text, i + 1, n), text, i, n)
  {
    hide Decimal, ValueOf;
    DecimalValue(i + 1);
    DecimalValue(n);
    var part, total := Decimal(i + 1), Decimal(n);
    assert PartMarker(i + 1, n) == "\n\n---\n*Part " + part + "/" + total + "*";
  }

  /** What comment `i` of a split text says: its piece, with the truncation marker if it is the last one and text is
      left over, and among several comments its number and theirs. */
  lemma CommentContents(content: string, maxLength: int, maxComments: int, i: nat)
    requires |content| > maxLength - COMMENT_OVERHEAD
    requires i < |SplitContentIntoComments(content, maxLength, maxComments)|
    ensures var r := SplitContentIntoComments(content, maxLength, maxComments);
            var (pieces, left) := Pieces(content, maxLength - COMMENT_OVERHEAD, maxComments);
            && |pieces| == |r|
            && NumberedBody(r[i].body, if i == |r| - 1 && left != "" then pieces[i] + TRUNCATION_MARKER else pieces[i],
                   i, |r|)
  {
    hide Turn, Pieces, Decorated, NumberedBody;
    var (pieces, left) := Pieces(content, maxLength - COMMENT_OVERHEAD, maxComments);
    DecoratedIsNumbered(MarkTruncated(pieces, left)[i], i, |pieces|);
  }

  lemma BlankTrimsAway(s: string)
    ensures TrimStart(s) == "" <==> Blank(s)
  {
    hide TrimStart;
    var r := TrimStart(s);
    if r == "" {
      assert s[..|s|] == s;
    } else {
      assert s[|s| - |r|] == s[|s| - |r|..][0] == r[0];
    }
  }

  lemma SplitCount(content: string, maxLength: int, maxComments: int)
    ensures |SplitContentIntoComments(content, maxLength, maxComments)| ==
            if |content| <= maxLength - COMMENT_OVERHEAD then 1
            else |Pieces(content, maxLength - COMMENT_OVERHEAD, maxComments).0|
  {
    hide Pieces, Decorated;
  }

  /** A text too long for one comment still yields a single one exactly when it is not empty and only one is allowed
      or everything after the first split point is white space. */
  lemma SinglePartLaw(content: string, maxLength: int, maxComments: int)
    requires |content| > maxLength - COMMENT_OVERHEAD && maxComments >= 1
    ensures |SplitContentIntoComments(content, maxLength, maxComments)| == 1 <==>
            content != "" && (maxComments == 1 || Blank(content[TurnPoint(content, maxLength - COMMENT_OVERHEAD)..]))
  {
    hide Turn, SplitContentIntoComments, FindSafeSplitPoint, Blank, TurnPoint, TrimStart;
    var effective := maxLength - COMMENT_OVERHEAD;
    SplitCount(content, maxLength, maxComments);
    if content != "" {
      TurnCuts(content, effective);
      BlankTrimsAway(content[TurnPoint(content, maxLength - COMMENT_OVERHEAD)..]);
      PieceCount(Turn(content, effective).rest, effective, maxComments - 1);
    }
  }

  /** No split is in the first three tenths up to the target. */
  lemma SplitPointIsFar(text: string, target: int)
    requires 1 <= target < |text|
    ensures 10 * FindSafeSplitPoint(text, target).0 > 3 * target
  {
    hide FindSafeSplitPoint, InsideAt, FirstAt, LastAt;
    SplitPointBounds(text, target);
    match FindSafeSplitPoint(text, target).1 {
      case AfterFence => BlockEndIsBehind(text, target);
      case Hard => HardIsTarget(text, target);
      case _ => CleanIsFar(text, target);
    }
  }

  lemma CleanIsFar(text: string, target: int)
    requires 1 <= target < |text| && Clean(FindSafeSplitPoint(text, target).1)
    ensures 10 * FindSafeSplitPoint(text, target).0 > 3 * target
  {
    hide InsideAt, LastIndexOf, BlockEnd;
  }

  /** What a caller can tell without looking for the split point, with at least two comments allowed: a text whose
      length without white space at its end is at most three tenths of the target yields a single comment; one without
      fences for which that length exceeds the target by more than one yields several. */
  lemma SinglePartByLength(content: string, maxLength: int, maxComments: int)
    requires maxLength >= LEAST_MAX_LENGTH && |content| > maxLength - COMMENT_OVERHEAD && maxComments >= 2
    ensures var target, solid := maxLength - COMMENT_OVERHEAD - |CONTINUATION_MARKER|, |TrimEnd(content)|;
            var n := |SplitContentIntoComments(content, maxLength, maxComments)|;
            && (10 * solid <= 3 * target ==> n == 1)
            && (NoFence(content) && solid > target + 1 ==> n > 1)
  {
    hide SplitContentIntoComments, FindSafeSplitPoint, NoFence, TrimEnd, TurnPoint, Blank, Pieces;
    var effective := maxLength - COMMENT_OVERHEAD;
    SinglePartLaw(content, maxLength, maxComments);
    SplitCount(content, maxLength, maxComments);
    SomethingRemains(content, effective, maxComments);
    var target, solid := effective - |CONTINUATION_MARKER|, |TrimEnd(content)|;
    if 10 * solid <= 3 * target { CutBehindSolid(content, effective); }
    if NoFence(content) && solid > target + 1 { CutInSolid(content, effective); }
  }

  lemma CutAt(content: string, effective: int)
    requires effective >= LEAST_EFFECTIVE && |content| > effective
    ensures var target := effective - |CONTINUATION_MARKER|;
            TurnPoint(content, effective) == FindSafeSplitPoint(content, target).0
  {
    hide FindSafeSplitPoint;
    SplitPointBounds(content, effective - |CONTINUATION_MARKER|);
  }

  lemma CutBehindSolid(content: string, effective: int)
    requires effective >= LEAST_EFFECTIVE && |content| > effective
    requires 10 * |TrimEnd(content)| <= 3 * (effective - |CONTINUATION_MARKER|)
    ensures Blank(content[TurnPoint(content, effective)..])
  {
    hide FindSafeSplitPoint, TrimEnd, TurnPoint;
    var p, solid := TurnPoint(content, effective), |TrimEnd(content)|;
    CutAt(content, effective);
    SplitPointIsFar(content, effective - |CONTINUATION_MARKER|);
    assert forall k | 0 <= k < |content[p..]| :: content[p..][k] == content[solid..][k + (p - solid)];
  }

  lemma CutInSolid(content: string, effective: int)
    requires effective >= LEAST_EFFECTIVE && |content| > effective && NoFence(content)
    requires |TrimEnd(content)| > effective - |CONTINUATION_MARKER| + 1
    ensures !Blank(content[TurnPoint(content, effective)..])
  {
    hide FindSafeSplitPoint, TrimEnd, TurnPoint, NoFence;
    var target := effective - |CONTINUATION_MARKER|;
    var p, solid := TurnPoint(content, effective), |TrimEnd(content)|;
    CutAt(content, effective);
    SplitPointBounds(content, target);
    NeverAfterFence(content, target);
    assert content[p..][solid - 1 - p] == TrimEnd(content)[solid - 1];
  }

  lemma SomethingRemains(content: string, effective: int, slots: int)
    requires content != "" && slots >= 1
    ensures |Pieces(content, effective, slots).0| >= 1
  {
    hide Turn;
  }

  // ---------------------------------------------------------------------------
  // Fence safety
  // ---------------------------------------------------------------------------

  /** Every split of the run came from a boundary outside every code block. */
  predicate AllClean(branches: seq<Branch>) {
    forall i | 0 <= i < |branches| :: branches[i].Whole? || Clean(branches[i])
  }

  /** The pieces read one by one, each from the outside. */
  function ReadingOfAll(pieces: seq<string>): seq<Mark> {
    if pieces == [] then [] else Reading(pieces[0], false) + ReadingOfAll(pieces[1..])
  }

  /** A cut that spares code blocks and fences. */
  predicate SafeCut(text: string, p: nat)
    requires p <= |text|
  {
    Lands(text, p) && !ScanEnd(text[..p], false)
  }

  /** Every cut of the run spares code blocks and fences, whatever branch chose it. */
  ghost predicate AllSafe(remaining: string, effective: int, slots: int)
    decreases if slots < 0 then 0 else slots
  {
    remaining != "" && slots > 0 ==>
      && (Fits(remaining, effective) || SafeCut(remaining, TurnPoint(remaining, effective)))
      && AllSafe(Turn(remaining, effective).rest, effective, slots - 1)
  }

  lemma CleanTurnIsSafe(remaining: string, effective: int)
    requires effective >= LEAST_EFFECTIVE && !Fits(remaining, effective)
    requires Clean(Turn(remaining, effective).branch)
    ensures SafeCut(remaining, TurnPoint(remaining, effective))
  {
    hide FindSafeSplitPoint, Turn, ScanEnd, Lands, Blank, TrimEnd, TrimStart;
    TurnCuts(remaining, effective);
    CleanSplit(remaining, PieceLength(remaining, effective));
  }

  lemma {:induction false} CleanIsSafe(remaining: string, effective: int, slots: int)
    requires effective >= LEAST_EFFECTIVE && AllClean(Branches(remaining, effective, slots))
    ensures AllSafe(remaining, effective, slots)
    decreases if slots < 0 then 0 else slots
  {
    hide Turn, SafeCut, Fits, TurnPoint;
    if remaining != "" && slots > 0 {
      var t := Turn(remaining, effective);
      var branches := Branches(remaining, effective, slots);
      assert branches[0] == t.branch && branches[1..] == Branches(t.rest, effective, slots - 1);
      CleanIsSafe(t.rest, effective, slots - 1);
      if !Fits(remaining, effective) {
        WholeFits(remaining, effective);
        CleanTurnIsSafe(remaining, effective);
      }
    }
  }

  lemma WholeFits(remaining: string, effective: int)
    requires effective >= LEAST_EFFECTIVE
    ensures Turn(remaining, effective).branch.Whole? <==> Fits(remaining, effective)
  {
    hide TrimStart, TrimEnd, Boundary, BlockEnd;
  }

  lemma SafeTurn(remaining: string, effective: int)
    requires effective >= LEAST_EFFECTIVE && !Fits(remaining, effective)
    requires SafeCut(remaining, TurnPoint(remaining, effective))
    ensures var t := Turn(remaining, effective);
            && !ScanEnd(t.piece, false)
            && Reading(remaining, false) == Reading(t.piece, false) + Reading(t.rest, false)
  {
    hide FindSafeSplitPoint, Turn, Reading, ScanEnd, Lands, Blank, TrimEnd, TrimStart;
    TurnCuts(remaining, effective);
    var t := Turn(remaining, effective);
    var p := TurnPoint(remaining, effective);
    var a, b := remaining[..p], remaining[p..];
    CutReading(remaining, p, false);
    assert a[..|t.piece|] == t.piece && a[|t.piece|..] == remaining[|t.piece|..p];
    BlankSuffix(a, |t.piece|, false);
    var n := |b| - |t.rest|;
    assert b[n..] == t.rest && b[..n] == remaining[p..|remaining| - |t.rest|];
    BlankPrefix(b, n, false);
  }

  /** When every cut is safe, reading the pieces one by one agrees with reading the whole text, each
      character with the same verdict, although white space was trimmed at every cut; and every piece
      but one that ends the text begins and ends outside a code block. */
  lemma {:induction false} SafeCutsAgree(remaining: string, effective: int, slots: int)
    requires effective >= LEAST_EFFECTIVE && AllSafe(remaining, effective, slots)
    ensures var (pieces, left) := Pieces(remaining, effective, slots);
            && Reading(remaining, false) == ReadingOfAll(pieces) + Reading(left, false)
            && (forall i | 0 <= i < |pieces| - (if left == "" then 1 else 0) :: !ScanEnd(pieces[i], false))
    decreases if slots < 0 then 0 else slots
  {
    hide Turn, Reading, ScanEnd, SafeCut, TurnPoint;
    BlankReading("", false);
    if remaining != "" && slots > 0 {
      var t := Turn(remaining, effective);
      var (more, left) := Pieces(t.rest, effective, slots - 1);
      SafeCutsAgree(t.rest, effective, slots - 1);
      TurnBounds(remaining, effective);
      assert ([t.piece] + more)[1..] == more;
      if Fits(remaining, effective) {
        TurnWhole(remaining, effective);
      } else {
        SafeTurn(remaining, effective);
        Associative(Reading(t.piece, false), ReadingOfAll(more), Reading(left, false));
      }
    }
  }

  /** In particular when every split is at a paragraph, sentence, line or word. */
  lemma FenceSafety(remaining: string, effective: int, slots: int)
    requires effective >= LEAST_EFFECTIVE && AllClean(Branches(remaining, effective, slots))
    ensures var (pieces, left) := Pieces(remaining, effective, slots);
            && Reading(remaining, false) == ReadingOfAll(pieces) + Reading(left, false)
            && (forall i | 0 <= i < |pieces| - (if left == "" then 1 else 0) :: !ScanEnd(pieces[i], false))
  {
    hide Reading, ScanEnd, Pieces, Branches;
    CleanIsSafe(remaining, effective, slots);
    SafeCutsAgree(remaining, effective, slots);
  }

  /** A block of code longer than the target, without a blank, line end or period in it. */
  predicate SolidBlock(text: string) {
    |text| >= 3 && text[..3] == FENCE && forall i | 3 <= i < |text| :: text[i] !in "`\n. "
  }

  lemma {:induction false} NeverLast(s: string, pattern: string, from: int)
    requires pattern != "" && forall p | 0 <= p < |s| :: s[p] != pattern[0]
    ensures LastAt(s, pattern, from) == -1
    decreases from + 1
  {
    if from >= 0 {
      assert !At(s, from, pattern) by { if At(s, from, pattern) { AtItsFirst(s, from, pattern); } }
      NeverLast(s, pattern, from - 1);
    }
  }

  lemma {:induction false} NeverFirst(s: string, from: nat)
    requires SolidBlock(s) && from >= 1
    ensures FirstAt(s, FENCE, from) == -1
    decreases |s| - from
  {
    if from < |s| {
      assert !At(s, from, FENCE) by { if from + 3 <= |s| { assert s[from..from + 3][2] == s[from + 2]; } }
      NeverFirst(s, from + 1);
    }
  }

  lemma {:induction false} SolidScan(text: string, i: nat, position: nat)
    requires SolidBlock(text) && 3 <= i <= position <= |text|
    ensures ScanFrom(text, i, true, position) && Lands(text[i..], position - i)
    decreases |text| - i
  {
    if i < position {
      FencedIsAt(text, i);
      assert text[i..][0] == text[i] && text[i..][1..] == text[i + 1..];
      SolidScan(text, i + 1, position);
    }
  }

  lemma SolidBlockInside(text: string, target: int)
    requires SolidBlock(text) && 3 <= target < |text|
    ensures InsideAt(text, target) && ScanEnd(text[..target], false)
  {
    hide ScanEnd;
    FencedIsAt(text, 0);
    assert text[0..3] == text[..3] && text[0..] == text;
    assert Lands(text, target) && InsideAt(text, target) by {
      SolidScan(text, 3, target);
      assert text[3..] == text[0..][3..];
    }
    assert text[0..target] == text[..target];
    ScanIsPrefixReading(text, 0, false, target);
  }

  /** The last resort does cut into code blocks, contrary to the strategy stated above the function:
      every block longer than the target and without any boundary inside is split within. */
  lemma SolidBlockIsBroken(text: string, target: int)
    requires SolidBlock(text) && 3 <= target < |text|
    ensures FindSafeSplitPoint(text, target) == (target, Hard) && ScanEnd(text[..target], false)
  {
    hide ScanFrom, ScanEnd, Lands, LastAt, FirstAt;
    forall p | 0 <= p < |text| ensures text[p] !in "\n. " {
      if p < 3 { assert text[p] == text[..3][p]; }
    }
    NeverLast(text, "\n\n", target);
    NeverLast(text, ". ", target);
    NeverLast(text, "\n", target);
    NeverLast(text, " ", target);
    NeverFirst(text, target);
    SolidBlockInside(text, target);
  }

  // ---------------------------------------------------------------------------
  // When a split is inside a code block
  // ---------------------------------------------------------------------------

  lemma BlockEndIsBehind(text: string, target: int)
    requires 1 <= target < |text| && FindSafeSplitPoint(text, target).1.AfterFence?
    ensures InsideAt(text, target) && target + 3 <= FindSafeSplitPoint(text, target).0 <= |text|
  {
    hide Boundary, ScanFrom, InsideAt, FirstAt;
    FirstAtInside(text, FENCE, target);
    FirstAtInside(text, "\n", IndexOf(text, FENCE, target) + 3);
  }

  /** Exactly when the text before a split ends inside a code block. Never at one of the four boundaries. At the last
      resort, if the check made for the target is right about it being inside, or is wrong about it being outside
      because the target is in the middle of a fence. Behind the next fence, if from the target to there
      an even number of fences is counted, so that the one found was not the one that closes the block. */
  lemma SplitInsideLaw(text: string, target: int)
    requires 1 <= target < |text|
    ensures var (p, branch) := FindSafeSplitPoint(text, target);
            && 1 <= p <= |text| && (branch.AfterFence? ==> Landing(text, target) <= p)
            && (ScanEnd(text[..p], false) <==>
                match branch
                case Hard => InsideAt(text, target) <==> Lands(text, target)
                case AfterFence => !Odd(FenceCount(text[Landing(text, target)..p]))
                case _ => false)
  {
    hide FindSafeSplitPoint, ScanEnd, ScanFrom, InsideAt, Lands, FenceCount, Landing, Odd;
    var (p, branch) := FindSafeSplitPoint(text, target);
    SplitPointBounds(text, target);
    match branch {
      case Hard =>
        HardIsTarget(text, target);
        ReadsUpTo(text, target);
      case AfterFence =>
        BlockEndIsBehind(text, target);
        ReadsOn(text, target, p);
      case _ => CleanSplit(text, target);
    }
  }

  lemma HardIsTarget(text: string, target: int)
    requires FindSafeSplitPoint(text, target).1.Hard?
    ensures FindSafeSplitPoint(text, target).0 == target
  {
    hide Boundary, BlockEnd;
  }

  /** Exactly when a split does. */
  lemma SafeCutLaw(text: string, target: int)
    requires 1 <= target < |text|
    ensures var (p, branch) := FindSafeSplitPoint(text, target);
            && 1 <= p <= |text| && (branch.AfterFence? ==> Landing(text, target) <= p)
            && (SafeCut(text, p) <==>
                match branch
                case Hard => Lands(text, target) && !InsideAt(text, target)
                case AfterFence => Lands(text, p) && Odd(FenceCount(text[Landing(text, target)..p]))
                case _ => true)
  {
    hide FindSafeSplitPoint, ScanEnd, ScanFrom, InsideAt, Lands, FenceCount, Landing, Odd;
    var (p, branch) := FindSafeSplitPoint(text, target);
    SplitInsideLaw(text, target);
    SplitPointBounds(text, target);
    match branch {
      case Hard => HardIsTarget(text, target);
      case AfterFence =>
      case _ => CleanSplit(text, target);
    }
  }

  /** The same law in terms of the text alone: the split is inside a code block exactly if no boundary is usable and,
      where the split goes behind the next fence, an even number of fences is counted from the target to there, and
      elsewhere, where it is at the target, the target is inside or in the middle of a fence taken to close a block. */
  lemma SplitInsideByInput(text: string, target: int, fence: nat, end: nat)
    requires 1 <= target < |text| && NextFence(text, target, fence, end)
    ensures GoesToFence(text, target, fence) ==>
              Landing(text, target) <= FenceLineEnd(text, fence, end) <= |text|
    ensures 1 <= FindSafeSplitPoint(text, target).0 <= |text|
    ensures ScanEnd(text[..FindSafeSplitPoint(text, target).0], false) <==>
            && NoBoundary(text, target)
            && if GoesToFence(text, target, fence)
               then !Odd(FenceCount(text[Landing(text, target)..FenceLineEnd(text, fence, end)]))
               else InsideAt(text, target) <==> Lands(text, target)
  {
    hide FindSafeSplitPoint, ScanEnd, InsideAt, Lands, FenceCount, Landing, Odd, NoBoundary, At;
    NoBoundaryIsUnclean(text, target);
    SplitInsideLaw(text, target);
    SplitPointBounds(text, target);
    if NoBoundary(text, target) { LastResorts(text, target, fence, end); }
  }

  lemma NoneUsableWithout(text: string, target: int, pattern: string, tenths: int)
    requires pattern != "" && forall i | 0 <= i < |text| && i <= target :: text[i] != pattern[0]
    ensures NoneUsable(text, target, pattern, tenths)
  {
    forall p
      ensures !Usable(text, target, pattern, tenths, p)
    {
      if Usable(text, target, pattern, tenths, p) {
        AtItsFirst(text, p, pattern);
      }
    }
  }

  lemma NothingUsable(text: string, target: int)
    requires 1 <= target < |text| && forall i | 0 <= i <= target :: text[i] == '`' || text[i] == 'a'
    ensures !Clean(FindSafeSplitPoint(text, target).1)
  {
    hide FindSafeSplitPoint, NoneUsable, Usable;
    NoneUsableWithout(text, target, "\n\n", 5);
    NoneUsableWithout(text, target, ". ", 5);
    NoneUsableWithout(text, target, "\n", 5);
    NoneUsableWithout(text, target, " ", 3);
    SplitPreference(text, target, 0);
  }

  lemma NotAt(text: string, q: nat, pattern: string)
    requires q < |text| && pattern != "" && text[q] != pattern[0]
    ensures !At(text, q, pattern)
  {
    if At(text, q, pattern) { AtItsFirst(text, q, pattern); }
  }

  const WITNESS := "```aaaaaaa``````b\nc"

  lemma WitnessSplit()
    ensures FindSafeSplitPoint(WITNESS, 8) == (17, AfterFence)
  {
    hide *;
    WitnessScan();
    WitnessStart();
    NothingUsable(WITNESS, 8);
    WitnessFences();
    BlockEndChosen(WITNESS, 8, 10, 17);
  }

  lemma WitnessStart()
    ensures |WITNESS| == 19 && forall i | 0 <= i <= 8 :: WITNESS[i] == '`' || WITNESS[i] == 'a'
  {
  }

  lemma BlockEndChosen(text: string, target: int, fence: int, end: int)
    requires 1 <= target <= fence < fence + 3 <= end < |text| && 2 * fence < 3 * target && InsideAt(text, target)
    requires !Clean(FindSafeSplitPoint(text, target).1)
    requires At(text, fence, FENCE) && forall q | target <= q < fence :: !At(text, q, FENCE)
    requires At(text, end, "\n") && forall q | fence + 3 <= q < end :: !At(text, q, "\n")
    ensures FindSafeSplitPoint(text, target) == (end, AfterFence)
  {
    hide InsideAt, FindSafeSplitPoint, At;
    LastResorts(text, target, fence, end);
  }

  lemma WitnessFences()
    ensures At(WITNESS, 10, FENCE) && At(WITNESS, 17, "\n")
    ensures forall q | 8 <= q < 10 :: !At(WITNESS, q, FENCE)
    ensures forall q | 13 <= q < 17 :: !At(WITNESS, q, "\n")
  {
    assert WITNESS[10..13] == FENCE && WITNESS[17..18] == "\n";
    assert WITNESS[8] == 'a' && WITNESS[9] == 'a';
    NotAt(WITNESS, 8, FENCE);
    NotAt(WITNESS, 9, FENCE);
    forall q | 13 <= q < 17
      ensures !At(WITNESS, q, "\n")
    {
      NotAt(WITNESS, q, "\n");
    }
  }

  /** The fence behind the target need not close the block for good: here a further one follows on its line. */
  lemma BlockEndSplitsInside()
    ensures FindSafeSplitPoint(WITNESS, 8) == (17, AfterFence) && ScanEnd(WITNESS[..17], false)
  {
    hide ScanFrom, ScanEnd, InsideAt, FindSafeSplitPoint, At, FenceCount, Landing;
    WitnessSplit();
    WitnessScan();
    SplitInsideLaw(WITNESS, 8);
    WitnessCount();
    assert WITNESS[8..17] == "aa``````b";
  }

  lemma CountStep(s: string, rest: string)
    ensures FenceCount("```" + rest) == 1 + FenceCount(rest)
    ensures s != "" && s[0] != '`' && s[1..] == rest ==> FenceCount(s) == FenceCount(rest)
  {
    hide FenceCount;
    CountUnfolds(s);
    var t := "```" + rest;
    CountUnfolds(t);
    assert t[3..] == rest;
  }

  lemma CountUnfolds(s: string)
    ensures s != "" ==> FenceCount(s) == (if Fenced(s) then 1 else 0) + FenceCount(s[Stride(s)..])
    ensures s == "" ==> FenceCount(s) == 0
  {
  }

  lemma WitnessCount()
    ensures FenceCount("aa``````b") == 2
  {
    hide FenceCount;
    CountUnfolds("");
    CountStep("b", "");
    CountStep("", "b");
    CountStep("", "```b");
    assert "```" + "```b" == "``````b" && "```" + "b" == "```b";
    CountStep("a``````b", "``````b");
    CountStep("aa``````b", "a``````b");
  }

  lemma WitnessScan()
    ensures InsideAt(WITNESS, 8) && Landing(WITNESS, 8) == 8
  {
    assert WITNESS[0..3] == FENCE && Fenced(WITNESS);
    ScanSkips(WITNESS, 3, 8, true, 8);
    LandingSolid(WITNESS[3..], 5);
  }

  /** The scan passes over anything but backticks. */
  lemma {:induction false} ScanSkips(text: string, i: nat, j: nat, inside: bool, position: nat)
    requires i <= j <= position && j <= |text| && forall k | i <= k < j :: text[k] != '`'
    ensures ScanFrom(text, i, inside, position) == ScanFrom(text, j, inside, position)
    decreases j - i
  {
    if i < j {
      NotAt(text, i, FENCE);
      ScanSkips(text, i + 1, j, inside, position);
    }
  }

  lemma {:induction false} LandingSolid(s: string, p: nat)
    requires p <= |s| && forall k | 0 <= k < p :: s[k] != '`'
    ensures Landing(s, p) == p
    decreases p
  {
    if p > 0 { LandingSolid(s[1..], p - 1); }
  }

  /** A position in the middle of a fence that follows `n` other characters. */
  lemma {:induction false} InsideAFence(s: string, n: nat, p: nat)
    requires n < p < n + 3 <= |s| && (forall k | 0 <= k < n :: s[k] != '`') && Fenced(s[n..])
    ensures !Lands(s, p)
    decreases n
  {
    if n == 0 {
      assert s[0..] == s;
    } else {
      assert s[1..][n - 1..] == s[n..];
      InsideAFence(s[1..], n - 1, p - 1);
    }
  }

  lemma OutsideIsHard(text: string, target: int)
    requires 1 <= target < |text| && !Clean(FindSafeSplitPoint(text, target).1) && !InsideAt(text, target)
    ensures FindSafeSplitPoint(text, target) == (target, Hard)
  {
    hide Boundary, InsideAt;
  }

  const CLOSING := "```aaaaa```a"

  /** The last resort in the middle of a closing fence: the check takes the target to be outside, and the text before
      the split ends inside the block. */
  lemma ClosingFenceIsCut()
    ensures FindSafeSplitPoint(CLOSING, 9) == (9, Hard) && !InsideAt(CLOSING, 9) && ScanEnd(CLOSING[..9], false)
  {
    hide FindSafeSplitPoint, ScanEnd, Lands, InsideAt, ScanFrom;
    ClosingScan();
    assert forall i | 0 <= i <= 9 :: CLOSING[i] == '`' || CLOSING[i] == 'a';
    NothingUsable(CLOSING, 9);
    OutsideIsHard(CLOSING, 9);
    ReadsUpTo(CLOSING, 9);
  }

  lemma ClosingScan()
    ensures !InsideAt(CLOSING, 9) && !Lands(CLOSING, 9)
  {
    hide Fenced, At;
    assert At(CLOSING, 0, FENCE) && Fenced(CLOSING) by { FenceAt(CLOSING, 0); assert CLOSING[0..] == CLOSING; }
    assert At(CLOSING, 8, FENCE) && Fenced(CLOSING[8..]) by { FenceAt(CLOSING, 8); }
    ScanSkips(CLOSING, 3, 8, true, 9);
    assert CLOSING[3..][5..] == CLOSING[8..];
    InsideAFence(CLOSING[3..], 5, 6);
  }

  lemma FenceAt(s: string, p: nat)
    requires p + 3 <= |s| && s[p] == s[p + 1] == s[p + 2] == '`'
    ensures At(s, p, FENCE) && Fenced(s[p..])
  {
    assert s[p..p + 3] == [s[p], s[p + 1], s[p + 2]];
  }

  const OPENING := "aaaaa```a"

  /** The last resort in the middle of an opening fence: the check takes the target to be inside, and the fence is cut,
      but the text before the split ends outside. */
  lemma OpeningFenceIsCut()
    ensures FindSafeSplitPoint(OPENING, 6) == (6, Hard) && InsideAt(OPENING, 6)
    ensures !ScanEnd(OPENING[..6], false) && !SafeCut(OPENING, 6)
  {
    hide FindSafeSplitPoint, ScanEnd, Lands, InsideAt, ScanFrom, At;
    OpeningScan();
    assert forall i | 0 <= i <= 6 :: OPENING[i] == '`' || OPENING[i] == 'a';
    NothingUsable(OPENING, 6);
    assert NextFence(OPENING, 6, 9, 9) by { NoFenceBehind(); }
    LastResorts(OPENING, 6, 9, 9);
    ReadsUpTo(OPENING, 6);
  }

  lemma NoFenceBehind()
    ensures forall q | 6 <= q < 9 :: !At(OPENING, q, FENCE)
  {
    assert OPENING[6..9][2] == 'a';
  }

  lemma OpeningScan()
    ensures InsideAt(OPENING, 6) && !Lands(OPENING, 6)
  {
    hide Fenced, At;
    assert At(OPENING, 5, FENCE) && Fenced(OPENING[5..]) by { FenceAt(OPENING, 5); }
    ScanSkips(OPENING, 0, 5, false, 6);
    InsideAFence(OPENING, 5, 6);
  }

  // ---------------------------------------------------------------------------
  // Length budget
  // ---------------------------------------------------------------------------

  /** No turn looked for the end of a code block. */
  predicate NoneAfterFence(branches: seq<Branch>) {
    forall i | 0 <= i < |branches| :: !branches[i].AfterFence?
  }

  lemma NoFenceEmpty()
    ensures NoFence("")
  {
  }

  lemma NeverAfterFence(text: string, target: int)
    requires NoFence(text)
    ensures !FindSafeSplitPoint(text, target).1.AfterFence?
  {
    hide Boundary;
    NoFenceOutside(text, 0, target);
  }

  lemma TurnWithoutFence(remaining: string, effective: int)
    requires NoFence(remaining)
    ensures !Turn(remaining, effective).branch.AfterFence? && NoFence(Turn(remaining, effective).rest)
  {
    hide FindSafeSplitPoint, Turn, NoFence, TurnPoint, Blank, TrimStart, TrimEnd;
    if Fits(remaining, effective) {
      TurnWhole(remaining, effective);
      NoFenceEmpty();
    } else {
      NeverAfterFence(remaining, PieceLength(remaining, effective));
      TurnCuts(remaining, effective);
      var k := |remaining| - |Turn(remaining, effective).rest|;
      NoFencePart(remaining, k, |remaining|);
      assert remaining[k..] == remaining[k..|remaining|];
    }
  }

  /** Text without fences never needs to. */
  lemma {:induction false} NoFenceNoneAfterFence(remaining: string, effective: int, slots: int)
    requires NoFence(remaining)
    ensures NoneAfterFence(Branches(remaining, effective, slots))
    decreases if slots < 0 then 0 else slots
  {
    hide Turn, NoFence;
    if remaining != "" && slots > 0 {
      TurnWithoutFence(remaining, effective);
      NoFenceNoneAfterFence(Turn(remaining, effective).rest, effective, slots - 1);
    }
  }

  /** Every piece fits, and every piece but one that ends the text leaves room for a continuation marker,
      up to one character. */
  lemma {:induction false} PieceLengths(remaining: string, effective: int, slots: int)
    requires effective >= LEAST_EFFECTIVE && NoneAfterFence(Branches(remaining, effective, slots))
    ensures var (pieces, left) := Pieces(remaining, effective, slots);
            && (forall i | 0 <= i < |pieces| :: |pieces[i]| <= effective)
            && (forall i | 0 <= i < |pieces| - (if left == "" then 1 else 0)
                :: |pieces[i]| <= effective - |CONTINUATION_MARKER| + 1)
    decreases if slots < 0 then 0 else slots
  {
    hide Turn;
    if remaining != "" && slots > 0 {
      var t := Turn(remaining, effective);
      var branches := Branches(remaining, effective, slots);
      assert branches[0] == t.branch && branches[1..] == Branches(t.rest, effective, slots - 1);
      PieceLengths(t.rest, effective, slots - 1);
      TurnBounds(remaining, effective);
      var (pieces, left) := Pieces(remaining, effective, slots);
      var more := Pieces(t.rest, effective, slots - 1).0;
      assert pieces == [t.piece] + more && left == Pieces(t.rest, effective, slots - 1).1;
      assert !branches[0].AfterFence?;
      assert t.branch.Whole? ==> more == [] && left == "";
      forall i | 0 <= i < |pieces|
        ensures |pieces[i]| <= effective
        ensures i < |pieces| - (if left == "" then 1 else 0) ==> |pieces[i]| <= effective - |CONTINUATION_MARKER| + 1
      {
        if i > 0 { assert pieces[i] == more[i - 1]; }
      }
    }
  }

  lemma {:induction false} DecimalLength(n: nat, k: nat)
    requires k >= 1 && n < Pow10(k)
    ensures |Decimal(n)| <= k
    decreases k
  {
    if n >= 10 {
      DecimalLength(n / 10, k - 1);
    }
  }

  function Pow10(k: nat): nat {
    if k == 0 then 1 else 10 * Pow10(k - 1)
  }

  lemma PartMarkerLength(part: nat, total: nat, k: nat)
    requires k >= 1 && part <= total < Pow10(k)
    ensures |PartMarker(part, total)| <= 14 + 2 * k
  {
    DecimalLength(part, k);
    DecimalLength(total, k);
  }

  /** Whatever the text, as long as no turn went looking for the end of a code block (text without fences
      never does), and with part numbers of at most 24 digits, every comment respects the maximum length. */
  lemma LengthBudget(content: string, maxLength: int, maxComments: int, digits: nat)
    requires maxLength >= LEAST_MAX_LENGTH && 1 <= digits <= 24 && maxComments < Pow10(digits)
    requires NoneAfterFence(Branches(content, maxLength - COMMENT_OVERHEAD, maxComments))
    ensures var r := SplitContentIntoComments(content, maxLength, maxComments);
            forall i | 0 <= i < |r| :: |r[i].body| <= maxLength
  {
    hide Pieces, Branches, PartMarker, Pow10;
    var effective := maxLength - COMMENT_OVERHEAD;
    if |content| > effective {
      var (pieces, left) := Pieces(content, effective, maxComments);
      PieceLengths(content, effective, maxComments);
      PieceCount(content, effective, maxComments);
      var marked := MarkTruncated(pieces, left);
      forall i | 0 <= i < |marked| ensures |Decorated(marked[i], i + 1, |marked|)| <= maxLength {
        PartMarkerLength(i + 1, |marked|, digits);
        assert i < |pieces| - 1 ==> marked[i] == pieces[i];
      }
    }
  }

  // ---------------------------------------------------------------------------
  // When a comment is too long
  // ---------------------------------------------------------------------------

  /** A turn's piece is longer than `k` exactly if there is something but white space from `k` to the cut. */
  lemma PieceExceeds(remaining: string, effective: int, k: nat)
    requires !Fits(remaining, effective)
    ensures var p := TurnPoint(remaining, effective);
            |Turn(remaining, effective).piece| > k <==> k < p && !Blank(remaining[k..p])
  {
    hide FindSafeSplitPoint, TurnPoint, Fits, TrimStart, TrimEnd;
    TurnCuts(remaining, effective);
    hide Turn;
    var p, piece := TurnPoint(remaining, effective), Turn(remaining, effective).piece;
    assert piece == TrimEnd(remaining[..p]);
    if |piece| > k {
      assert remaining[k..p][|piece| - 1 - k] == piece[|piece| - 1];
    } else if k < p {
      assert forall x | 0 <= x < p - k :: remaining[k..p][x] == remaining[|piece|..p][x + (k - |piece|)];
    }
  }

  /** The split goes to a fence line that holds something but white space at `k` or later. */
  ghost predicate OverFenceLine(text: string, target: nat, fence: nat, end: nat, k: nat) {
    && NextFence(text, target, fence, end) && NoBoundary(text, target) && GoesToFence(text, target, fence)
    && k < FenceLineEnd(text, fence, end) && !Blank(text[k..FenceLineEnd(text, fence, end)])
  }

  /** Exactly when a turn's piece is longer than a length the other branches never exceed. */
  lemma LongTurnLaw(remaining: string, effective: int, fence: nat, end: nat, k: nat)
    requires effective >= LEAST_EFFECTIVE && |remaining| > effective
    requires k > effective - |CONTINUATION_MARKER|
    requires NextFence(remaining, effective - |CONTINUATION_MARKER|, fence, end)
    ensures |Turn(remaining, effective).piece| > k
            <==> OverFenceLine(remaining, effective - |CONTINUATION_MARKER|, fence, end, k)
  {
    hide FindSafeSplitPoint, Turn, TurnPoint, NoBoundary, GoesToFence, NextFence, FenceLineEnd, Blank, InsideAt;
    var target := effective - |CONTINUATION_MARKER|;
    PieceExceeds(remaining, effective, k);
    CutAt(remaining, effective);
    NoBoundaryIsUnclean(remaining, target);
    SplitPointBounds(remaining, target);
    if NoBoundary(remaining, target) { LastResorts(remaining, target, fence, end); }
  }

  /** What is left when `i` turns have been taken. */
  function RestAfter(remaining: string, effective: int, i: nat): string
    decreases i
  {
    if i == 0 then remaining else RestAfter(Turn(remaining, effective).rest, effective, i - 1)
  }

  lemma {:induction false} PieceOfRest(remaining: string, effective: int, slots: int, i: nat)
    requires i < |Pieces(remaining, effective, slots).0|
    ensures var (pieces, left) := Pieces(remaining, effective, slots);
            var rest := RestAfter(remaining, effective, i);
            && rest != "" && pieces[i] == Turn(rest, effective).piece
            && (Fits(rest, effective) ==> i == |pieces| - 1 && left == "" && pieces[i] == rest)
    decreases i
  {
    hide Turn, Fits;
    var t := Turn(remaining, effective);
    if i > 0 {
      PieceOfRest(t.rest, effective, slots - 1, i - 1);
    } else if Fits(remaining, effective) {
      TurnWhole(remaining, effective);
    }
  }

  /** The markers that part `i` of `n` gets. */
  function Overhead(i: nat, n: nat, left: string): nat
    requires i < n
  {
    (if i == n - 1 && left != "" then |TRUNCATION_MARKER| else 0)
    + if n > 1 then (if i < n - 1 then |CONTINUATION_MARKER| else 0) + |PartMarker(i + 1, n)| else 0
  }

  lemma BodyLength(pieces: seq<string>, left: string, i: nat)
    requires i < |pieces|
    ensures |Numbered(MarkTruncated(pieces, left))[i].body| == |pieces[i]| + Overhead(i, |pieces|, left)
  {
    hide PartMarker;
  }

  lemma OverheadFits(i: nat, n: nat, left: string, digits: nat)
    requires i < n < Pow10(digits) && 1 <= digits <= 24
    ensures Overhead(i, n, left) <= COMMENT_OVERHEAD
  {
    hide PartMarker, Pow10;
    PartMarkerLength(i + 1, n, digits);
  }

  lemma CommentLength(content: string, maxLength: int, maxComments: int, pieces: seq<string>, left: string, i: nat)
    requires |content| > maxLength - COMMENT_OVERHEAD
    requires Pieces(content, maxLength - COMMENT_OVERHEAD, maxComments) == (pieces, left) && i < |pieces|
    ensures var r := SplitContentIntoComments(content, maxLength, maxComments);
            |r| == |pieces| && |r[i].body| == |pieces[i]| + Overhead(i, |pieces|, left)
  {
    hide Pieces, MarkTruncated, Overhead, Decorated;
    BodyLength(pieces, left, i);
  }

  /** Exactly when a comment exceeds the maximum length, for every part of every text: if the turn that took it found no
      usable boundary and went behind the next fence, and the line of that fence holds something but white space
      where the comment with its markers is full. */
  lemma LengthLaw(content: string, maxLength: int, maxComments: int, digits: nat, pieces: seq<string>, left: string,
                  i: nat, rest: string, effective: nat, fence: nat, end: nat)
    requires maxLength >= LEAST_MAX_LENGTH && effective == maxLength - COMMENT_OVERHEAD && |content| > effective
    requires 1 <= digits <= 24 && maxComments < Pow10(digits)
    requires Pieces(content, effective, maxComments) == (pieces, left) && i < |pieces|
    requires rest == RestAfter(content, effective, i)
    requires NextFence(rest, effective - |CONTINUATION_MARKER|, fence, end)
    ensures |SplitContentIntoComments(content, maxLength, maxComments)| == |pieces|
    ensures Overhead(i, |pieces|, left) <= COMMENT_OVERHEAD
    ensures |SplitContentIntoComments(content, maxLength, maxComments)[i].body| > maxLength <==>
            && |rest| > effective
            && OverFenceLine(rest, effective - |CONTINUATION_MARKER|, fence, end,
                             maxLength - Overhead(i, |pieces|, left))
  {
    hide Pieces, Turn, RestAfter, NextFence, OverFenceLine, Overhead, SplitContentIntoComments, Pow10;
    PieceOfRest(content, effective, maxComments, i);
    PieceCountWithin(content, effective, maxComments);
    CommentLength(content, maxLength, maxComments, pieces, left, i);
    OverheadFits(i, |pieces|, left, digits);
    if |rest| > effective {
      LongTurnLaw(rest, effective, fence, end, maxLength - Overhead(i, |pieces|, left));
    }
  }

  lemma {:induction false} PieceCountWithin(remaining: string, effective: int, slots: int)
    ensures |Pieces(remaining, effective, slots).0| <= if slots < 0 then 0 else slots
    decreases if slots < 0 then 0 else slots
  {
    hide Turn;
    if remaining != "" && slots > 0 {
      PieceCountWithin(Turn(remaining, effective).rest, effective, slots - 1);
    }
  }

  /** As many letters as told. */
  function Letters(n: nat): string {
    seq(n, _ => 'a')
  }

  /** A code block that fills the target, closed on a line of `n` further letters. */
  function LongFenceLine(target: nat, n: nat): string {
    FENCE + Letters(target) + FENCE + Letters(n) + "\nc"
  }

  lemma LongFenceLineAt(target: nat, n: nat, k: nat)
    ensures var text := LongFenceLine(target, n);
            && |text| == target + n + 8
            && (k < 3 ==> text[k] == '`')
            && (3 <= k < target + 3 ==> text[k] == 'a')
            && (target + 3 <= k < target + 6 ==> text[k] == '`')
            && (target + 6 <= k < target + n + 6 ==> text[k] == 'a')
            && (k == target + n + 6 ==> text[k] == '\n')
  {
  }

  lemma LongFenceLineScan(target: nat, n: nat)
    requires target >= 7
    ensures var text, fence, end := LongFenceLine(target, n), target + 3, target + n + 6;
            && NextFence(text, target, fence, end) && GoesToFence(text, target, fence) && NoBoundary(text, target)
  {
    hide LongFenceLine, NoBoundary, Clean;
    var text, fence, end := LongFenceLine(target, n), target + 3, target + n + 6;
    forall k: nat | k < |text|
      ensures k < 3 || fence <= k < fence + 3 ==> text[k] == '`'
      ensures 3 <= k < fence || fence + 3 <= k < end ==> text[k] == 'a'
      ensures k == end ==> text[k] == '\n'
    {
      LongFenceLineAt(target, n, k);
    }
    LongFenceLineAt(target, n, 0);
    FenceAt(text, 0);
    FenceAt(text, fence);
    ScanSkips(text, 3, target, true, target);
    forall q | target <= q < fence
      ensures !At(text, q, FENCE)
    {
      NotAt(text, q, FENCE);
    }
    forall q | fence + 3 <= q < end
      ensures !At(text, q, "\n")
    {
      NotAt(text, q, "\n");
    }
    assert text[end..end + 1] == "\n";
    NothingUsable(text, target);
    NoBoundaryIsUnclean(text, target);
  }

  /** The splitter does exceed the maximum length: its first comment holds the whole line of the closing fence. */
  lemma LongFenceLineIsTooLong(maxLength: int, maxComments: int)
    requires maxLength >= LEAST_MAX_LENGTH + 6 && maxComments >= 1
    ensures var target := maxLength - COMMENT_OVERHEAD - |CONTINUATION_MARKER|;
            var r := SplitContentIntoComments(LongFenceLine(target, maxLength), maxLength, maxComments);
            r != [] && |r[0].body| > maxLength
  {
    hide LongFenceLine, Turn, NextFence, GoesToFence, NoBoundary, SplitContentIntoComments, Pieces, Overhead;
    var effective := maxLength - COMMENT_OVERHEAD;
    var target := effective - |CONTINUATION_MARKER|;
    var text, fence, end := LongFenceLine(target, maxLength), target + 3, target + maxLength + 6;
    LongFenceLineAt(target, maxLength, maxLength);
    LongFenceLineScan(target, maxLength);
    SolidAt(text, maxLength);
    assert text[maxLength..end][0] == text[maxLength];
    LongTurnLaw(text, effective, fence, end, maxLength);
    var (pieces, left) := Pieces(text, effective, maxComments);
    PiecesStep(text, effective, maxComments);
    CommentLength(text, maxLength, maxComments, pieces, left, 0);
  }

  lemma SolidAt(text: string, k: nat)
    requires k < |text| && (text[k] == 'a' || text[k] == '`')
    ensures !IsSpace(text[k])
  {
  }
}
