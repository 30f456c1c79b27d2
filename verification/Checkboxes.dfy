/** Parsing and updating the checkboxes of a markdown text. */
module Checkboxes {
  import opened JsText

  // ---------------------------------------------------------------------------
  // Lines
  // ---------------------------------------------------------------------------

  predicate OneLine(s: string) {
    forall i | 0 <= i < |s| :: s[i] != '\n'
  }

  /** `s.split('\n')`. */
  function SplitLines(s: string): (lines: seq<string>)
    ensures lines != [] && forall i | 0 <= i < |lines| :: OneLine(lines[i])
  {
    if s == "" then [""]
    else
      var rest := SplitLines(s[1..]);
      if s[0] == '\n' then [""] + rest else [[s[0]] + rest[0]] + rest[1..]
  }

  /** `lines.join('\n')`. */
  function JoinLines(lines: seq<string>): string
    requires lines != []
  {
    if |lines| == 1 then lines[0] else lines[0] + "\n" + JoinLines(lines[1..])
  }

  lemma {:induction false} JoinInvertsSplit(s: string)
    ensures JoinLines(SplitLines(s)) == s
    decreases |s|
  {
    if s != "" {
      var rest := SplitLines(s[1..]);
      JoinInvertsSplit(s[1..]);
      var lines := SplitLines(s);
      if s[0] == '\n' {
        assert lines[1..] == rest && lines[0] == "";
        assert "" + "\n" + s[1..] == s;
      } else if |rest| == 1 {
        assert lines == [[s[0]] + rest[0]];
      } else {
        assert lines[1..] == rest[1..] && lines[0] == [s[0]] + rest[0];
        assert ([s[0]] + rest[0]) + "\n" + JoinLines(rest[1..]) == [s[0]] + (rest[0] + "\n" + JoinLines(rest[1..]));
      }
    }
  }

  lemma {:induction false} SplitInvertsJoin(lines: seq<string>)
    requires lines != [] && forall i | 0 <= i < |lines| :: OneLine(lines[i])
    ensures SplitLines(JoinLines(lines)) == lines
    decreases |lines|, |lines[0]|
  {
    var s := JoinLines(lines);
    var first := lines[0];
    if first != "" {
      var shorter := lines[0 := first[1..]];
      assert s[1..] == JoinLines(shorter) by {
        if |lines| > 1 { assert shorter[1..] == lines[1..]; }
      }
      SplitInvertsJoin(shorter);
      assert s[0] == first[0] != '\n';
      assert [first[0]] + first[1..] == first;
      assert [[first[0]] + shorter[0]] + shorter[1..] == lines;
    } else if |lines| > 1 {
      assert s[1..] == JoinLines(lines[1..]);
      SplitInvertsJoin(lines[1..]);
      assert [""] + lines[1..] == lines;
    } else {
      assert lines == [""];
    }
  }

  // ---------------------------------------------------------------------------
  // One line
  // ---------------------------------------------------------------------------

  /** How much white space begins a line. */
  function IndentLength(line: string): (n: nat)
    ensures n <= |line| && (n < |line| ==> !IsSpace(line[n])) && Blank(line[..n])
  {
    if line != "" && IsSpace(line[0]) then
      var n := 1 + IndentLength(line[1..]);
      assert line[..n] == [line[0]] + line[1..][..n - 1];
      n
    else 0
  }

  /** Characters the dot of a regular expression does not match. */
  predicate IsLineTerminator(c: char) {
    c == '\n' || c == '\r' || c as int == 0x2028 || c as int == 0x2029
  }

  predicate IsMark(c: char) {
    c == ' ' || c == 'x' || c == 'X'
  }

  /** A checkbox: indent, hyphen, blank, mark in brackets, blank, and text up to the end. */
  predicate IsCheckbox(line: string) {
    var n := IndentLength(line);
    && |line| >= n + 6
    && line[n] == '-' && line[n + 1] == ' ' && line[n + 2] == '['
    && IsMark(line[n + 3]) && line[n + 4] == ']' && line[n + 5] == ' '
    && forall i | n + 6 <= i < |line| :: !IsLineTerminator(line[i])
  }

  datatype CheckboxItem = CheckboxItem(index: nat, line: nat, checked: bool, text: string, indentLevel: nat,
      raw: string)

  function Item(line: string, index: nat, lineNum: nat): CheckboxItem
    requires IsCheckbox(line)
  {
    var n := IndentLength(line);
    CheckboxItem(index, lineNum, line[n + 3] != ' ', TrimStart(TrimEnd(line[n + 6..])), n, line)
  }

  predicate BracketedMarkAt(s: string, i: nat) {
    i + 2 < |s| && s[i] == '[' && IsMark(s[i + 1]) && s[i + 2] == ']'
  }

  /** Replace the first mark in brackets, wherever it is, as the regular expression does. */
  function ReplaceMark(s: string, mark: char): string {
    if BracketedMarkAt(s, 0) then "[" + [mark] + "]" + s[3..]
    else if s == "" then ""
    else [s[0]] + ReplaceMark(s[1..], mark)
  }

  function NewMark(checked: bool): char {
    if checked then 'x' else ' '
  }

  lemma {:induction false} ReplaceMarkAt(s: string, i: nat, mark: char)
    requires BracketedMarkAt(s, i) && forall j | 0 <= j < i :: !BracketedMarkAt(s, j)
    ensures ReplaceMark(s, mark) == s[i + 1 := mark]
    decreases i
  {
    if i > 0 {
      assert !BracketedMarkAt(s, 0);
      forall j | 0 <= j < i - 1 ensures !BracketedMarkAt(s[1..], j) {
        assert !BracketedMarkAt(s, j + 1);
      }
      ReplaceMarkAt(s[1..], i - 1, mark);
      assert [s[0]] + s[1..][i := mark] == s[i + 1 := mark];
    } else {
      assert "[" + [mark] + "]" + s[3..] == s[1 := mark];
    }
  }

  lemma {:induction false} IndentIs(line: string, n: nat)
    requires n < |line| && Blank(line[..n]) && !IsSpace(line[n])
    ensures IndentLength(line) == n
    decreases n
  {
    if n > 0 {
      assert IsSpace(line[..n][0]);
      assert line[1..][..n - 1] == line[..n][1..];
      IndentIs(line[1..], n - 1);
    }
  }

  lemma ItemFields(line: string, k: nat, l: nat)
    requires IsCheckbox(line)
    ensures var item := Item(line, k, l);
            && item.index == k && item.line == l && item.raw == line && item.indentLevel == IndentLength(line)
            && item.indentLevel + 6 <= |line|
  {
  }

  /** A line put together from white space, a mark in its brackets, and a text without line terminators. */
  ghost predicate Shaped(line: string, indent: string, mark: char, rest: string) {
    && line == indent + "- [" + [mark] + "] " + rest
    && Blank(indent) && (mark == ' ' || mark == 'x' || mark == 'X')
    && forall i | 0 <= i < |rest| :: !IsLineTerminator(rest[i])
  }

  lemma ShapedFields(line: string, indent: string, mark: char, rest: string)
    requires Shaped(line, indent, mark, rest)
    ensures IsCheckbox(line) && IndentLength(line) == |indent| && line[|indent| + 3] == mark
    ensures line[|indent| + 6..] == rest
  {
    var n := |indent|;
    assert line[..n] == indent && line[n + 6..] == rest && line[n..n + 6] == "- [" + [mark] + "] ";
    assert line[n] == line[n..n + 6][0] && line[n + 1] == line[n..n + 6][1] && line[n + 2] == line[n..n + 6][2];
    assert line[n + 3] == line[n..n + 6][3] && line[n + 4] == line[n..n + 6][4] && line[n + 5] == line[n..n + 6][5];
    IndentIs(line, n);
    forall i | n + 6 <= i < |line| ensures !IsLineTerminator(line[i]) {
      assert line[i] == rest[i - (n + 6)];
    }
  }

  /** A line is a checkbox exactly if it is put together that way. */
  lemma CheckboxShape(line: string)
    ensures IsCheckbox(line) <==> exists indent, mark, rest :: Shaped(line, indent, mark, rest)
  {
    if IsCheckbox(line) {
      var n := IndentLength(line);
      assert line == line[..n] + "- [" + [line[n + 3]] + "] " + line[n + 6..];
      assert Shaped(line, line[..n], line[n + 3], line[n + 6..]);
    }
    if indent, mark, rest :| Shaped(line, indent, mark, rest) {
      ShapedFields(line, indent, mark, rest);
    }
  }

  /** `inner` is `s` without the white space around it. */
  ghost predicate Trimmed(s: string, inner: string) {
    && (inner != "" ==> !IsSpace(inner[0]) && !IsSpace(inner[|inner| - 1]))
    && exists before, after :: SurroundedBy(s, before, inner, after)
  }

  ghost predicate SurroundedBy(s: string, before: string, inner: string, after: string) {
    s == before + inner + after && Blank(before) && Blank(after)
  }

  lemma SurroundedIsTrimmed(s: string, before: string, inner: string, after: string)
    requires s == before + inner + after && Blank(before) && Blank(after)
    requires inner != "" ==> !IsSpace(inner[0]) && !IsSpace(inner[|inner| - 1])
    ensures Trimmed(s, inner)
  {
    hide Blank, IsSpace;
    assert SurroundedBy(s, before, inner, after);
  }

  lemma TrimTrims(s: string)
    ensures Trimmed(s, TrimStart(TrimEnd(s)))
  {
    hide *;
    var kept := TrimEnd(s);
    var inner := TrimStart(kept);
    var before, after := kept[..|kept| - |inner|], s[|kept|..];
    assert kept == before + inner;
    assert s == kept + after;
    if inner != "" { assert inner[|inner| - 1] == kept[|kept| - 1]; }
    SurroundedIsTrimmed(s, before, inner, after);
  }

  /** What the item of such a line says. */
  lemma ItemOfShape(line: string, indent: string, mark: char, rest: string, k: nat, l: nat)
    requires Shaped(line, indent, mark, rest)
    ensures IsCheckbox(line)
    ensures var item := Item(line, k, l);
            && item.index == k && item.line == l && item.raw == line && item.indentLevel == |indent|
            && (item.checked <==> mark == 'x' || mark == 'X')
            && Trimmed(rest, item.text)
  {
    ShapedFields(line, indent, mark, rest);
    MarkOfShape(line, indent, mark, rest);
    TrimTrims(rest);
    hide Shaped, IsCheckbox, IndentLength, TrimStart, TrimEnd, Trimmed;
    assert Item(line, k, l).text == TrimStart(TrimEnd(line[|indent| + 6..]));
  }

  lemma MarkOfShape(line: string, indent: string, mark: char, rest: string)
    requires Shaped(line, indent, mark, rest)
    ensures mark != ' ' <==> mark == 'x' || mark == 'X'
  {
  }

  /** In a checkbox line the mark replaced is the checkbox's own. */
  lemma OwnMark(line: string, mark: char)
    requires IsCheckbox(line)
    ensures ReplaceMark(line, mark) == line[IndentLength(line) + 3 := mark]
  {
    hide ReplaceMark;
    var n := IndentLength(line);
    forall j | 0 <= j < n + 2 ensures !BracketedMarkAt(line, j) {
      if j < n { assert IsSpace(line[..n][j]); }
    }
    ReplaceMarkAt(line, n + 2, mark);
  }

  lemma SameIndent(line: string, mark: char)
    requires IsCheckbox(line)
    ensures IndentLength(line[IndentLength(line) + 3 := mark]) == IndentLength(line)
  {
    var n := IndentLength(line);
    assert line[n + 3 := mark][..n] == line[..n];
    IndentIs(line[n + 3 := mark], n);
  }

  /** Nothing else about the item changes. */
  lemma UpdatedLine(line: string, checked: bool)
    requires IsCheckbox(line)
    ensures var after := ReplaceMark(line, NewMark(checked));
            && after == line[IndentLength(line) + 3 := NewMark(checked)]
            && IsCheckbox(after) && (OneLine(line) ==> OneLine(after))
  {
    hide ReplaceMark, IndentLength, Blank;
    OwnMark(line, NewMark(checked));
    SameIndent(line, NewMark(checked));
  }

  lemma UpdatedItem(line: string, checked: bool, k: nat, l: nat)
    requires IsCheckbox(line) && IsCheckbox(ReplaceMark(line, NewMark(checked)))
    ensures var after := ReplaceMark(line, NewMark(checked));
            Item(after, k, l) == Item(line, k, l).(checked := checked, raw := after)
  {
    hide ReplaceMark, IndentLength, Blank, TrimStart, TrimEnd;
    var n := IndentLength(line);
    OwnMark(line, NewMark(checked));
    SameIndent(line, NewMark(checked));
    assert line[n + 3 := NewMark(checked)][n + 6..] == line[n + 6..];
  }

  // ---------------------------------------------------------------------------
  // A text
  // ---------------------------------------------------------------------------

  function ParseLines(lines: seq<string>): seq<CheckboxItem> {
    if lines == [] then []
    else
      var last := |lines| - 1;
      var before := ParseLines(lines[..last]);
      if IsCheckbox(lines[last]) then before + [Item(lines[last], |before|, last)] else before
  }

  function ParseCheckboxes(markdown: string): seq<CheckboxItem> {
    ParseLines(SplitLines(markdown))
  }

  method Parse(markdown: string) returns (checkboxes: seq<CheckboxItem>)
    ensures checkboxes == ParseCheckboxes(markdown)
  {
    hide IsCheckbox, Item, OneLine;
    var lines := SplitLines(markdown);
    checkboxes := [];
    var checkboxIndex := 0;
    for lineNum := 0 to |lines|
      invariant checkboxes == ParseLines(lines[..lineNum]) && checkboxIndex == |checkboxes|
    {
      assert lines[..lineNum + 1][..lineNum] == lines[..lineNum];
      var line := lines[lineNum];
      if IsCheckbox(line) {
        checkboxes := checkboxes + [Item(line, checkboxIndex, lineNum)];
        checkboxIndex := checkboxIndex + 1;
      }
    }
    assert lines[..|lines|] == lines;
  }

  function FindItem(items: seq<CheckboxItem>, index: int): Option<CheckboxItem> {
    if items == [] then None else if items[0].index == index then Some(items[0]) else FindItem(items[1..], index)
  }

  function UpdateCheckbox(markdown: string, index: int, checked: bool): string {
    match FindItem(ParseCheckboxes(markdown), index)
    case None => markdown
    case Some(item) =>
      var lines := SplitLines(markdown);
      if item.line < |lines| then JoinLines(lines[item.line := ReplaceMark(item.raw, NewMark(checked))]) else markdown
  }

  /** One entry of a batch: an index, or none (a text pattern is not part of this model). */
  datatype CheckboxUpdate = CheckboxUpdate(index: Option<int>, checked: bool)

  function UpdateCheckboxes(markdown: string, updates: seq<CheckboxUpdate>): string {
    if updates == [] then markdown
    else
      var last := updates[|updates| - 1];
      var before := UpdateCheckboxes(markdown, updates[..|updates| - 1]);
      if last.index.Some? then UpdateCheckbox(before, last.index.value, last.checked) else before
  }

  method ApplyUpdates(markdown: string, updates: seq<CheckboxUpdate>) returns (result: string)
    ensures result == UpdateCheckboxes(markdown, updates)
  {
    result := markdown;
    for k := 0 to |updates|
      invariant result == UpdateCheckboxes(markdown, updates[..k])
    {
      assert updates[..k + 1][..k] == updates[..k];
      if updates[k].index.Some? {
        result := UpdateInPlace(result, updates[k].index.value, updates[k].checked);
      }
    }
    assert updates[..|updates|] == updates;
  }

  /** The update on an array of lines, one of which is written. */
  method UpdateInPlace(markdown: string, index: int, checked: bool) returns (result: string)
    ensures result == UpdateCheckbox(markdown, index, checked)
  {
    var checkboxes := Parse(markdown);
    var checkbox := FindItem(checkboxes, index);
    if checkbox.None? {
      return markdown;
    }
    var split := SplitLines(markdown);
    var lines := new string[|split|](i requires 0 <= i < |split| => split[i]);
    assert lines[..] == split;
    if checkbox.value.line >= lines.Length {
      return markdown;
    }
    lines[checkbox.value.line] := ReplaceMark(checkbox.value.raw, NewMark(checked));
    assert lines[..] == split[checkbox.value.line := ReplaceMark(checkbox.value.raw, NewMark(checked))];
    result := JoinLines(lines[..]);
  }

  // ---------------------------------------------------------------------------
  // Round trip
  // ---------------------------------------------------------------------------

  /** How many checkboxes come before line `j`. */
  function Rank(lines: seq<string>, j: nat): nat
    requires j <= |lines|
  {
    |ParseLines(lines[..j])|
  }

  /** The `k`-th item carries its number, and its line is the `k`-th checkbox line. */
  lemma {:induction false} ItemFacts(lines: seq<string>, k: nat)
    requires k < |ParseLines(lines)|
    ensures var item := ParseLines(lines)[k];
            && item.index == k && item.line < |lines|
            && IsCheckbox(lines[item.line]) && item == Item(lines[item.line], k, item.line)
            && Rank(lines, item.line) == k
    decreases |lines|
  {
    hide IsCheckbox, Item;
    var init := lines[..|lines| - 1];
    if k < |ParseLines(init)| {
      ItemFacts(init, k);
      var l := ParseLines(init)[k].line;
      assert init[..l] == lines[..l];
    } else {
      ItemFields(lines[|lines| - 1], k, |lines| - 1);
    }
  }

  lemma {:induction false} FindIsIndexing(items: seq<CheckboxItem>, from: nat, index: int)
    requires forall k | 0 <= k < |items| :: items[k].index == from + k
    ensures FindItem(items, index) ==
            if from <= index < from + |items| then Some(items[index - from]) else None
    decreases |items|
  {
    if items != [] && items[0].index != index {
      FindIsIndexing(items[1..], from + 1, index);
    }
  }

  lemma FindInParsed(lines: seq<string>, index: int)
    ensures FindItem(ParseLines(lines), index) ==
            if 0 <= index < |ParseLines(lines)| then Some(ParseLines(lines)[index]) else None
  {
    hide *;
    var items := ParseLines(lines);
    forall k | 0 <= k < |items| ensures items[k].index == 0 + k {
      ItemFacts(lines, k);
    }
    FindIsIndexing(items, 0, index);
  }

  /** The lines after one update: those before, but for the line of that checkbox. */
  lemma UpdatedLines(markdown: string, index: int, checked: bool)
    ensures var items, lines := ParseCheckboxes(markdown), SplitLines(markdown);
            SplitLines(UpdateCheckbox(markdown, index, checked)) ==
            if 0 <= index < |items| && items[index].line < |lines|
            then lines[items[index].line := ReplaceMark(lines[items[index].line], NewMark(checked))] else lines
  {
    hide IsCheckbox, ReplaceMark, ParseLines, FindItem, SplitLines, JoinLines, Item;
    var items, lines := ParseCheckboxes(markdown), SplitLines(markdown);
    FindInParsed(lines, index);
    if 0 <= index < |items| {
      ItemFacts(lines, index);
      var l := items[index].line;
      UpdatedLine(lines[l], checked);
      ItemFields(lines[l], index, l);
      SplitInvertsJoin(lines[l := ReplaceMark(lines[l], NewMark(checked))]);
    }
  }

  lemma {:induction false} ParseUpdated(lines: seq<string>, j: nat, checked: bool)
    requires j < |lines| && IsCheckbox(lines[j])
    ensures var k := Rank(lines, j);
            var after := ReplaceMark(lines[j], NewMark(checked));
            && k < |ParseLines(lines)|
            && ParseLines(lines[j := after])
               == ParseLines(lines)[k := ParseLines(lines)[k].(checked := checked, raw := after)]
    decreases |lines|
  {
    hide IsCheckbox, ReplaceMark, Item, OneLine;
    var after := ReplaceMark(lines[j], NewMark(checked));
    UpdatedLine(lines[j], checked);
    var last := |lines| - 1;
    var updated := lines[j := after];
    if j == last {
      assert updated[..last] == lines[..last];
      UpdatedItem(lines[j], checked, Rank(lines, j), j);
    } else {
      assert updated[..last] == lines[..last][j := after] && lines[..last][..j] == lines[..j];
      ParseUpdated(lines[..last], j, checked);
    }
  }

  /** Parsing an updated text gives the old items with only that item's flag and raw line changed, in a text
      whose other lines are the same; an index that is not there changes nothing at all. */
  lemma RoundTrip(markdown: string, index: int, checked: bool)
    ensures var items, lines := ParseCheckboxes(markdown), SplitLines(markdown);
            var updated := UpdateCheckbox(markdown, index, checked);
            && (0 <= index < |items| ==>
                  && items[index].line < |lines|
                  && var after := ReplaceMark(items[index].raw, NewMark(checked));
                     && ParseCheckboxes(updated) == items[index := items[index].(checked := checked, raw := after)]
                     && SplitLines(updated) == lines[items[index].line := after]
                     && items[index].indentLevel + 3 < |items[index].raw|
                     && after == items[index].raw[items[index].indentLevel + 3 := NewMark(checked)])
            && (!(0 <= index < |items|) ==> updated == markdown)
  {
    hide IsCheckbox, ReplaceMark, ParseLines, SplitLines, JoinLines, Item;
    var items, lines := ParseCheckboxes(markdown), SplitLines(markdown);
    FindInParsed(lines, index);
    UpdatedLines(markdown, index, checked);
    if 0 <= index < |items| {
      ItemFacts(lines, index);
      ParseUpdated(lines, items[index].line, checked);
      UpdatedLine(lines[items[index].line], checked);
      ItemFields(lines[items[index].line], index, items[index].line);
    }
  }

  // ---------------------------------------------------------------------------
  // Batches
  // ---------------------------------------------------------------------------

  /** What a batch last says about checkbox `k`. */
  function LastWrite(updates: seq<CheckboxUpdate>, k: int): Option<bool> {
    if updates == [] then None
    else
      var last := updates[|updates| - 1];
      if last.index == Some(k) then Some(last.checked) else LastWrite(updates[..|updates| - 1], k)
  }

  /** Line `j` once every checkbox has received what the batch last says about it. */
  function WrittenLine(lines: seq<string>, updates: seq<CheckboxUpdate>, j: nat): string
    requires j < |lines|
  {
    if !IsCheckbox(lines[j]) then lines[j]
    else match LastWrite(updates, Rank(lines, j))
      case None => lines[j]
      case Some(checked) => ReplaceMark(lines[j], NewMark(checked))
  }

  lemma {:induction false} SameRank(a: seq<string>, b: seq<string>, j: nat)
    requires j <= |a| == |b| && forall i | 0 <= i < j :: IsCheckbox(a[i]) == IsCheckbox(b[i])
    ensures Rank(a, j) == Rank(b, j)
    decreases j
  {
    hide IsCheckbox;
    if j > 0 {
      SameRank(a, b, j - 1);
      assert a[..j][..j - 1] == a[..j - 1] && b[..j][..j - 1] == b[..j - 1];
    }
  }

  lemma {:induction false} RankGrows(lines: seq<string>, i: nat, j: nat)
    requires i < j <= |lines| && IsCheckbox(lines[i])
    ensures Rank(lines, i) < Rank(lines, j)
    decreases j
  {
    hide IsCheckbox;
    assert lines[..j][..j - 1] == lines[..j - 1];
    if i < j - 1 {
      RankGrows(lines, i, j - 1);
    }
  }

  lemma UpdateTwice(s: string, i: nat, a: char, b: char)
    requires i < |s|
    ensures s[i := a][i := b] == s[i := b]
  {
  }

  lemma OverwriteMark(line: string, first: bool, second: bool)
    requires IsCheckbox(line)
    ensures ReplaceMark(ReplaceMark(line, NewMark(first)), NewMark(second)) == ReplaceMark(line, NewMark(second))
  {
    hide IsCheckbox, ReplaceMark, IndentLength, OneLine, NewMark;
    var a, b := NewMark(first), NewMark(second);
    CheckboxLength(line);
    UpdatedLine(line, first);
    SameIndent(line, a);
    OwnMark(line, b);
    OwnMark(line[IndentLength(line) + 3 := a], b);
    UpdateTwice(line, IndentLength(line) + 3, a, b);
  }

  lemma CheckboxLength(line: string)
    requires IsCheckbox(line)
    ensures IndentLength(line) + 3 < |line|
  {
    hide IndentLength;
  }

  lemma NothingWritten(lines: seq<string>, j: nat)
    requires j < |lines|
    ensures WrittenLine(lines, [], j) == lines[j]
  {
    hide IsCheckbox;
  }

  /** What a batch makes of a text, line by line: every checkbox keeps its line and gets the state last
      written to its number. */
  lemma {:induction false} BatchEffect(markdown: string, updates: seq<CheckboxUpdate>)
    ensures var lines, after := SplitLines(markdown), SplitLines(UpdateCheckboxes(markdown, updates));
            |after| == |lines| && forall j | 0 <= j < |lines| :: after[j] == WrittenLine(lines, updates, j)
    decreases |updates|
  {
    hide IsCheckbox, ReplaceMark, ParseLines, SplitLines, WrittenLine, UpdateCheckbox;
    if updates == [] {
      forall j | 0 <= j < |SplitLines(markdown)|
        ensures WrittenLine(SplitLines(markdown), updates, j) == SplitLines(markdown)[j]
      {
        NothingWritten(SplitLines(markdown), j);
      }
    } else {
      var init, last := updates[..|updates| - 1], updates[|updates| - 1];
      assert updates == init + [last];
      BatchEffect(markdown, init);
      if last.index.Some? {
        var mid := UpdateCheckboxes(markdown, init);
        UpdatedLines(mid, last.index.value, last.checked);
        UpdatedLineNumber(SplitLines(mid), last.index.value);
        forall j | 0 <= j < |SplitLines(markdown)|
          ensures SplitLines(UpdateCheckboxes(markdown, updates))[j] == WrittenLine(SplitLines(markdown), updates, j)
        {
          OneMoreWrite(SplitLines(markdown), SplitLines(mid), init, last, j);
        }
      } else {
        forall j | 0 <= j < |SplitLines(markdown)|
          ensures WrittenLine(SplitLines(markdown), updates, j) == WrittenLine(SplitLines(markdown), init, j)
        {
          NoWrite(SplitLines(markdown), init, last, j);
        }
      }
    }
  }

  lemma UpdatedLineNumber(lines: seq<string>, k: int)
    ensures 0 <= k < |ParseLines(lines)| ==> ParseLines(lines)[k].line < |lines|
  {
    if 0 <= k < |ParseLines(lines)| { ItemFacts(lines, k); }
  }

  lemma NoWrite(lines: seq<string>, init: seq<CheckboxUpdate>, last: CheckboxUpdate, j: nat)
    requires j < |lines| && last.index.None?
    ensures WrittenLine(lines, init + [last], j) == WrittenLine(lines, init, j)
  {
    hide IsCheckbox, ReplaceMark;
    assert (init + [last])[..|init|] == init;
  }

  lemma WrittenIsCheckbox(lines: seq<string>, updates: seq<CheckboxUpdate>, j: nat)
    requires j < |lines|
    ensures IsCheckbox(WrittenLine(lines, updates, j)) == IsCheckbox(lines[j])
  {
    hide IsCheckbox;
    if IsCheckbox(lines[j]) {
      UpdatedLine(lines[j], true);
      UpdatedLine(lines[j], false);
    }
  }

  /** The checkbox in line `j` is the item with the number `Rank(lines, j)`. */
  lemma {:induction false} RankedItem(lines: seq<string>, j: nat)
    requires j < |lines| && IsCheckbox(lines[j])
    ensures Rank(lines, j) < |ParseLines(lines)| && ParseLines(lines)[Rank(lines, j)].line == j
    decreases |lines|
  {
    hide IsCheckbox, Item;
    var last := |lines| - 1;
    if j == last {
      assert ParseLines(lines)[|ParseLines(lines[..last])|] == Item(lines[last], |ParseLines(lines[..last])|, last);
      ItemLine(lines[last], |ParseLines(lines[..last])|, last);
    } else {
      assert lines[..last][..j] == lines[..j];
      RankedItem(lines[..last], j);
    }
  }

  lemma ItemLine(line: string, k: nat, l: nat)
    requires IsCheckbox(line)
    ensures Item(line, k, l).line == l
  {
  }

  lemma HitsItsLine(lines: seq<string>, j: nat, k: int)
    requires j < |lines|
    ensures 0 <= k < |ParseLines(lines)| && ParseLines(lines)[k].line == j <==>
            IsCheckbox(lines[j]) && k == Rank(lines, j)
  {
    hide IsCheckbox, ParseLines, Item;
    if 0 <= k < |ParseLines(lines)| { ItemFacts(lines, k); }
    if IsCheckbox(lines[j]) { RankedItem(lines, j); }
  }

  lemma OneMoreWrite(lines: seq<string>, mid: seq<string>, init: seq<CheckboxUpdate>, last: CheckboxUpdate, j: nat)
    requires |mid| == |lines| && (forall i | 0 <= i < |lines| :: mid[i] == WrittenLine(lines, init, i))
    requires j < |lines| && last.index.Some?
    ensures var items := ParseLines(mid);
            var k := last.index.value;
            var hit := 0 <= k < |items| && items[k].line == j;
            (if hit then ReplaceMark(mid[j], NewMark(last.checked)) else mid[j]) == WrittenLine(lines, init + [last], j)
  {
    hide IsCheckbox, ReplaceMark, ParseLines;
    assert (init + [last])[..|init|] == init;
    forall i | 0 <= i < |lines| ensures IsCheckbox(mid[i]) == IsCheckbox(lines[i]) {
      WrittenIsCheckbox(lines, init, i);
    }
    SameRank(lines, mid, j);
    HitsItsLine(mid, j, last.index.value);
    if IsCheckbox(lines[j]) && LastWrite(init, Rank(lines, j)).Some? {
      OverwriteMark(lines[j], LastWrite(init, Rank(lines, j)).value, last.checked);
    }
  }

  /** A batch acts as a last-writer-wins map: two batches that last write the same state to every
      checkbox have the same result, in whatever order and however often they write. */
  lemma LastWriterWins(markdown: string, updates: seq<CheckboxUpdate>, others: seq<CheckboxUpdate>)
    requires forall k: nat :: LastWrite(updates, k) == LastWrite(others, k)
    ensures UpdateCheckboxes(markdown, updates) == UpdateCheckboxes(markdown, others)
  {
    hide IsCheckbox, ReplaceMark, ParseLines, LastWrite, UpdateCheckboxes, SplitLines, JoinLines;
    var lines := SplitLines(markdown);
    var a, b := UpdateCheckboxes(markdown, updates), UpdateCheckboxes(markdown, others);
    BatchEffect(markdown, updates);
    BatchEffect(markdown, others);
    forall j | 0 <= j < |lines| ensures SplitLines(a)[j] == SplitLines(b)[j] {
      assert LastWrite(updates, Rank(lines, j)) == LastWrite(others, Rank(lines, j));
    }
    assert SplitLines(a) == SplitLines(b);
    JoinInvertsSplit(a);
    JoinInvertsSplit(b);
  }

  /** So updates of different checkboxes commute, and of two updates of one checkbox the second counts. */
  lemma TwoUpdates(markdown: string, i: int, a: bool, j: int, b: bool)
    ensures i != j ==>
              UpdateCheckbox(UpdateCheckbox(markdown, i, a), j, b)
              == UpdateCheckbox(UpdateCheckbox(markdown, j, b), i, a)
    ensures UpdateCheckbox(UpdateCheckbox(markdown, i, a), i, b) == UpdateCheckbox(markdown, i, b)
  {
    hide UpdateCheckbox;
    var u, v, w := CheckboxUpdate(Some(i), a), CheckboxUpdate(Some(j), b), CheckboxUpdate(Some(i), b);
    BatchOfTwo(markdown, u, v);
    BatchOfTwo(markdown, v, u);
    BatchOfTwo(markdown, u, w);
    LastWriteOfTwo(u, v);
    LastWriteOfTwo(v, u);
    LastWriteOfTwo(u, w);
    if i != j {
      LastWriterWins(markdown, [u, v], [v, u]);
    }
    LastWriterWins(markdown, [u, w], [w]);
  }

  lemma BatchOfTwo(markdown: string, u: CheckboxUpdate, v: CheckboxUpdate)
    requires u.index.Some? && v.index.Some?
    ensures UpdateCheckboxes(markdown, [u, v]) == UpdateCheckbox(UpdateCheckbox(markdown, u.index.value, u.checked),
        v.index.value, v.checked)
    ensures UpdateCheckboxes(markdown, [v]) == UpdateCheckbox(markdown, v.index.value, v.checked)
  {
    hide UpdateCheckbox;
    assert [u, v][..1] == [u] && [u][..0] == [] && [v][..0] == [];
    assert UpdateCheckboxes(markdown, []) == markdown;
    assert UpdateCheckboxes(markdown, [u]) == UpdateCheckbox(markdown, u.index.value, u.checked);
  }

  lemma LastWriteOfTwo(u: CheckboxUpdate, v: CheckboxUpdate)
    ensures forall k :: LastWrite([u, v], k) ==
                        if v.index == Some(k) then Some(v.checked) else if u.index == Some(k) then Some(u.checked)
                            else None
    ensures forall k :: LastWrite([v], k) == if v.index == Some(k) then Some(v.checked) else None
  {
    assert [u, v][..1] == [u] && [u][..0] == [] && [v][..0] == [];
    forall k ensures LastWrite([u], k) == (if u.index == Some(k) then Some(u.checked) else None) {
      assert LastWrite([], k) == None;
    }
  }
}
