/** The scanner that decides whether a position lies inside a code block: it toggles at every
    run of three backticks, left to right. And what cutting and trimming do to its reading. */
module FenceScan {
  import opened JsText

  const FENCE := "```"

  /** `pattern` occurs in `s` at `p`. */
  predicate At(s: string, p: int, pattern: string) {
    0 <= p && p + |pattern| <= |s| && s[p..p + |pattern|] == pattern
  }

  function ScanFrom(text: string, i: nat, inside: bool, position: int): bool
    decreases |text| - i
  {
    if i >= position || i >= |text| then inside
    else if At(text, i, FENCE) then ScanFrom(text, i + 3, !inside, position)
    else ScanFrom(text, i + 1, inside, position)
  }

  function InsideAt(text: string, position: int): bool {
    ScanFrom(text, 0, false, position)
  }

  method IsInsideCodeBlock(text: string, position: int) returns (inside: bool)
    ensures inside == InsideAt(text, position)
  {
    inside := false;
    var i := 0;
    while i < position && i < |text|
      invariant 0 <= i
      invariant ScanFrom(text, i, inside, position) == InsideAt(text, position)
      decreases |text| - i
    {
      if At(text, i, FENCE) {
        inside := !inside;
        i := i + 3;
      } else {
        i := i + 1;
      }
    }
  }

  // ---------------------------------------------------------------------------
  // The scanner's reading of a whole text
  // ---------------------------------------------------------------------------

  predicate Fenced(s: string) {
    |s| >= 3 && s[0] == '`' && s[1] == '`' && s[2] == '`'
  }

  /** How far one step of the scan goes. */
  function Stride(s: string): (k: nat)
    ensures 1 <= k <= 3 && (s != [] ==> k <= |s|)
  {
    if Fenced(s) then 3 else 1
  }

  /** Whether the scan of `s`, begun inside or outside a block, ends inside one. */
  function ScanEnd(s: string, inside: bool): bool
    decreases |s|
  {
    if s == [] then inside else ScanEnd(s[Stride(s)..], inside != Fenced(s))
  }

  /** A character other than white space, and whether the scanner saw it as code. */
  datatype Mark = Mark(c: char, code: bool)

  function Head(s: string, inside: bool): seq<Mark>
    requires s != []
  {
    if Fenced(s) then [Mark('`', inside), Mark('`', inside), Mark('`', inside)]
    else if IsSpace(s[0]) then []
    else [Mark(s[0], inside)]
  }

  /** Everything in `s` but white space, each character with the scanner's verdict. */
  function Reading(s: string, inside: bool): seq<Mark>
    decreases |s|
  {
    if s == [] then [] else Head(s, inside) + Reading(s[Stride(s)..], inside != Fenced(s))
  }

  /** The scan of `s` stops at `p`, rather than jumping over it. */
  predicate Lands(s: string, p: nat)
    decreases |s|
  {
    p == 0 || (s != [] && p >= Stride(s) && Lands(s[Stride(s)..], p - Stride(s)))
  }

  lemma FencedIsAt(text: string, i: nat)
    requires i <= |text|
    ensures At(text, i, FENCE) <==> Fenced(text[i..])
  {
    if Fenced(text[i..]) {
      assert text[i] == text[i..][0] && text[i + 1] == text[i..][1] && text[i + 2] == text[i..][2];
    }
  }

  function Ticks(k: nat): string {
    seq(k, i => '`')
  }

  lemma TickSteps(k: nat, rest: string)
    requires k > 0 && (rest == "" || rest[0] != '`')
    ensures var s := Ticks(k) + rest;
            && s != [] && (Fenced(s) <==> k >= 3)
            && s[Stride(s)..] == Ticks(if k >= 3 then k - 3 else k - 1) + rest
  {
    var s := Ticks(k) + rest;
    if k < 3 && |s| > k { assert s[k] == rest[0]; }
  }

  /** What the scan counts: a run of `k` backticks is `k / 3` fences, each of which turns code on or off. */
  lemma {:induction false} TickRun(k: nat, rest: string, inside: bool)
    requires rest == "" || rest[0] != '`'
    ensures ScanEnd(Ticks(k) + rest, inside) == ScanEnd(rest, inside != (k / 3 % 2 == 1))
    decreases k
  {
    if k == 0 {
      assert Ticks(k) + rest == rest;
    } else {
      TickSteps(k, rest);
      hide Ticks, Stride, Fenced;
      TickRun(if k >= 3 then k - 3 else k - 1, rest, if k >= 3 then !inside else inside);
    }
  }

  /** And nothing else matters to it. */
  lemma {:induction false} PlainRun(plain: string, rest: string, inside: bool)
    requires forall i | 0 <= i < |plain| :: plain[i] != '`'
    ensures ScanEnd(plain + rest, inside) == ScanEnd(rest, inside)
    decreases |plain|
  {
    if plain == "" {
      assert plain + rest == rest;
    } else {
      assert (plain + rest)[1..] == plain[1..] + rest;
      PlainRun(plain[1..], rest, inside);
    }
  }

  /** Where the scan lands, the loop's answer is the reading of what comes before. */
  lemma {:induction false} ScanIsPrefixReading(text: string, i: nat, inside: bool, position: nat)
    requires i <= position <= |text| && Lands(text[i..], position - i)
    ensures ScanFrom(text, i, inside, position) == ScanEnd(text[i..position], inside)
    decreases |text| - i
  {
    if i < position {
      FencedIsAt(text, i);
      var k := Stride(text[i..]);
      assert text[i..][k..] == text[i + k..];
      assert Fenced(text[i..position]) == Fenced(text[i..]) && text[i..position][k..] == text[i + k..position];
      ScanIsPrefixReading(text, i + k, inside != Fenced(text[i..]), position);
    }
  }

  /** A fence cannot straddle a character that is not a backtick: the scan lands there. */
  lemma {:induction false} LandsBeforeNonTick(s: string, p: nat)
    requires p < |s| && s[p] != '`'
    ensures Lands(s, p) && Lands(s, p + 1)
    decreases |s|
  {
    if p == 0 {
      assert Lands(s[1..], 0);
    } else {
      LandsBeforeNonTick(s[Stride(s)..], p - Stride(s));
    }
  }

  lemma PrefixStep(s: string, p: nat, inside: bool)
    requires p <= |s| && s != [] && p >= Stride(s)
    ensures var k := Stride(s);
            && s[..p] != [] && Fenced(s[..p]) == Fenced(s) && Head(s[..p], inside) == Head(s, inside)
            && s[..p][k..] == s[k..][..p - k] && s[k..][p - k..] == s[p..]
  {
  }

  lemma Associative<T>(a: seq<T>, b: seq<T>, c: seq<T>)
    ensures a + (b + c) == a + b + c
  {
  }

  /** Cutting where the scan lands cuts the reading in two. */
  lemma {:induction false} CutReading(s: string, p: nat, inside: bool)
    requires p <= |s| && Lands(s, p)
    ensures Reading(s, inside) == Reading(s[..p], inside) + Reading(s[p..], ScanEnd(s[..p], inside))
    decreases |s|
  {
    hide Fenced, Head;
    if p == 0 {
      assert s[..p] == [] && s[p..] == s;
    } else {
      PrefixStep(s, p, inside);
      var k, inside' := Stride(s), inside != Fenced(s);
      CutReading(s[k..], p - k, inside');
      Associative(Head(s, inside), Reading(s[k..][..p - k], inside'),
          Reading(s[p..], ScanEnd(s[k..][..p - k], inside')));
    }
  }

  lemma {:induction false} CutEnd(s: string, p: nat, inside: bool)
    requires p <= |s| && Lands(s, p)
    ensures ScanEnd(s, inside) == ScanEnd(s[p..], ScanEnd(s[..p], inside))
    decreases |s|
  {
    if p == 0 {
      assert s[..p] == [] && s[p..] == s;
    } else {
      PrefixStep(s, p, inside);
      CutEnd(s[Stride(s)..], p - Stride(s), inside != Fenced(s));
    }
  }

  // ---------------------------------------------------------------------------
  // Cutting anywhere
  // ---------------------------------------------------------------------------

  /** Where the scan first stops at or after `p`: at `p`, or behind the fence that `p` is in the middle of. */
  function Landing(s: string, p: nat): (m: nat)
    requires p <= |s|
    ensures p <= m <= |s| && m <= p + 2
    decreases |s|
  {
    if p == 0 then 0
    else if p <= Stride(s) then Stride(s)
    else Stride(s) + Landing(s[Stride(s)..], p - Stride(s))
  }

  /** How many fences the scan of `s` counts. */
  function FenceCount(s: string): nat
    decreases |s|
  {
    if s == [] then 0 else (if Fenced(s) then 1 else 0) + FenceCount(s[Stride(s)..])
  }

  predicate Odd(n: nat) {
    n % 2 == 1
  }

  lemma {:induction false} CountDecides(s: string, inside: bool)
    ensures ScanEnd(s, inside) == (inside != Odd(FenceCount(s)))
    decreases |s|
  {
    if s != [] {
      CountDecides(s[Stride(s)..], inside != Fenced(s));
    }
  }

  lemma {:induction false} LandingLands(s: string, p: nat)
    requires p <= |s|
    ensures Lands(s, Landing(s, p))
    ensures Lands(s, p) <==> Landing(s, p) == p
    decreases |s|
  {
    if p > 0 {
      var k := Stride(s);
      if p > k {
        LandingLands(s[k..], p - k);
      } else {
        assert Lands(s[k..], 0);
      }
    }
  }

  lemma ScanStep(text: string, i: nat, inside: bool, position: nat)
    requires i < position <= |text|
    ensures var t := text[i..];
            ScanFrom(text, i, inside, position) == ScanFrom(text, i + Stride(t), inside != Fenced(t), position)
  {
    hide At;
    FencedIsAt(text, i);
  }

  lemma LandingStep(s: string, p: nat, inside: bool)
    requires 0 < p <= |s|
    ensures var k, m := Stride(s), Landing(s, p);
            && (k < p ==> && m == k + Landing(s[k..], p - k)
                          && ScanEnd(s[..m], inside) == ScanEnd(s[k..][..m - k], inside != Fenced(s)))
            && (k >= p ==> m == k && ScanEnd(s[..m], inside) == (inside != Fenced(s)))
  {
    hide Fenced;
    var k, m := Stride(s), Landing(s, p);
    PrefixStep(s, m, inside);
    if k >= p {
      assert s[..m][k..] == [];
    }
  }

  lemma ScanStops(text: string, i: nat, inside: bool, position: nat)
    requires position <= i
    ensures ScanFrom(text, i, inside, position) == inside
  {
  }

  /** The loop's answer is the reading of the text up to where it stops. */
  lemma {:induction false} ScanReadsToLanding(text: string, i: nat, inside: bool, position: nat)
    requires i <= position <= |text|
    ensures ScanFrom(text, i, inside, position) == ScanEnd(text[i..][..Landing(text[i..], position - i)], inside)
    decreases |text| - i
  {
    hide At, Fenced, Stride, ScanFrom, ScanEnd, Landing;
    var t := text[i..];
    if i < position {
      var k := Stride(t);
      ScanStep(text, i, inside, position);
      LandingStep(t, position - i, inside);
      if k < position - i {
        assert t[k..] == text[i + k..];
        ScanReadsToLanding(text, i + k, inside != Fenced(t), position);
      } else {
        ScanStops(text, i + k, inside != Fenced(t), position);
      }
    } else {
      ScanStops(text, i, inside, position);
      NothingRead(t, inside);
    }
  }

  lemma NothingRead(s: string, inside: bool)
    ensures ScanEnd(s[..Landing(s, 0)], inside) == inside
  {
  }

  /** Cut in the middle of a fence, the text before the cut lacks the toggle of that fence. */
  lemma {:induction false} CutFence(s: string, p: nat, inside: bool)
    requires p <= |s| && !Lands(s, p)
    ensures ScanEnd(s[..p], inside) == !ScanEnd(s[..Landing(s, p)], inside)
    decreases |s|
  {
    var k, m := Stride(s), Landing(s, p);
    if p < k {
      assert m == k == 3 && Fenced(s) && s[..m][3..] == [] && Fenced(s[..m]);
      TooShortForFence(s[..p], inside);
    } else {
      PrefixStep(s, p, inside);
      PrefixStep(s, m, inside);
      assert Lands(s[k..], 0);
      CutFence(s[k..], p - k, inside != Fenced(s));
    }
  }

  lemma TooShortForFence(s: string, inside: bool)
    requires |s| <= 2
    ensures ScanEnd(s, inside) == inside
  {
    if |s| == 2 {
      assert s[1..][1..] == [];
    }
  }

  lemma {:induction false} LandsInPrefix(s: string, p: nat, m: nat)
    requires m <= p <= |s| && Lands(s, m)
    ensures Lands(s[..p], m)
    decreases |s|
  {
    if m > 0 {
      PrefixStep(s, p, false);
      LandsInPrefix(s[Stride(s)..], p - Stride(s), m - Stride(s));
    }
  }

  /** The text before any position at or after `target` ends inside a code block by what the loop answers for `target`
      and how many fences are counted from where it stopped. */
  lemma ReadsOn(text: string, target: nat, p: nat)
    requires target <= |text| && Landing(text, target) <= p <= |text|
    ensures ScanEnd(text[..p], false) == (InsideAt(text, target) != Odd(FenceCount(text[Landing(text, target)..p])))
  {
    hide Lands, ScanEnd, FenceCount, ScanFrom, Landing, Odd;
    var m := Landing(text, target);
    LandingLands(text, target);
    ScanReadsToLanding(text, 0, false, target);
    assert text[0..] == text;
    LandsInPrefix(text, p, m);
    CutEnd(text[..p], m, false);
    assert text[..p][..m] == text[..m] && text[..p][m..] == text[m..p];
    CountDecides(text[m..p], ScanEnd(text[..m], false));
  }

  /** The text before `target` itself ends inside a code block if the loop says so and stops there, or if it says
      the opposite and stops later, behind the fence that is cut. */
  lemma ReadsUpTo(text: string, target: nat)
    requires target <= |text|
    ensures ScanEnd(text[..target], false) <==> (InsideAt(text, target) <==> Lands(text, target))
  {
    hide Lands, ScanEnd, ScanFrom, Landing;
    LandingLands(text, target);
    ScanReadsToLanding(text, 0, false, target);
    assert text[0..] == text;
    if !Lands(text, target) {
      CutFence(text, target, false);
    }
  }

  lemma {:induction false} BlankReading(s: string, inside: bool)
    requires Blank(s)
    ensures Reading(s, inside) == [] && ScanEnd(s, inside) == inside
    decreases |s|
  {
    if s != [] {
      assert IsSpace(s[0]);
      BlankReading(s[1..], inside);
    }
  }

  /** White space before a text does not touch its reading. */
  lemma {:induction false} BlankPrefix(s: string, n: nat, inside: bool)
    requires n <= |s| && Blank(s[..n])
    ensures Reading(s, inside) == Reading(s[n..], inside)
    decreases n
  {
    if n > 0 {
      assert IsSpace(s[..n][0]);
      assert s[1..][..n - 1] == s[..n][1..] && s[1..][n - 1..] == s[n..];
      BlankPrefix(s[1..], n - 1, inside);
    }
  }

  /** Nor does white space after it. */
  lemma BlankSuffix(s: string, n: nat, inside: bool)
    requires n <= |s| && Blank(s[n..])
    ensures Reading(s, inside) == Reading(s[..n], inside)
    ensures ScanEnd(s, inside) == ScanEnd(s[..n], inside)
  {
    if n < |s| {
      assert IsSpace(s[n..][0]);
      LandsBeforeNonTick(s, n);
      CutReading(s, n, inside);
      CutEnd(s, n, inside);
      BlankReading(s[n..], ScanEnd(s[..n], inside));
    } else {
      assert s[..n] == s;
    }
  }

  // ---------------------------------------------------------------------------
  // Text without the scanner's verdicts
  // ---------------------------------------------------------------------------

  /** The characters of `s` other than white space. */
  function NonSpace(s: string): string {
    if s == [] then [] else NonSpace(s[..|s| - 1]) + (if IsSpace(s[|s| - 1]) then [] else [s[|s| - 1]])
  }

  lemma {:induction false} NonSpaceConcat(a: string, b: string)
    ensures NonSpace(a + b) == NonSpace(a) + NonSpace(b)
    decreases |b|
  {
    if b == [] {
      assert a + b == a;
    } else {
      var b', c := b[..|b| - 1], b[|b| - 1];
      assert (a + b)[..|a + b| - 1] == a + b' && (a + b)[|a + b| - 1] == c;
      NonSpaceConcat(a, b');
    }
  }

  lemma {:induction false} NonSpaceBlank(s: string)
    requires Blank(s)
    ensures NonSpace(s) == []
    decreases |s|
  {
    if s != [] {
      assert IsSpace(s[|s| - 1]);
      NonSpaceBlank(s[..|s| - 1]);
    }
  }

  predicate NoFence(s: string) {
    forall p | 0 <= p < |s| :: !At(s, p, FENCE)
  }

  lemma {:induction false} NoFenceOutside(text: string, i: nat, position: int)
    requires NoFence(text)
    ensures !ScanFrom(text, i, false, position)
    decreases |text| - i
  {
    if i < position && i < |text| {
      NoFenceOutside(text, i + 1, position);
    }
  }

  lemma NoFencePart(s: string, i: nat, j: nat)
    requires NoFence(s) && i <= j <= |s|
    ensures NoFence(s[i..j])
  {
    forall p | 0 <= p < j - i ensures !At(s[i..j], p, FENCE) {
      assert !At(s, i + p, FENCE);
      if p + 3 <= j - i {
        var t := s[i..j];
        assert t[p..p + 3] == [t[p], t[p + 1], t[p + 2]];
        assert s[i + p..i + p + 3] == [s[i + p], s[i + p + 1], s[i + p + 2]];
      }
    }
  }
}
