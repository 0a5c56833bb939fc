/** The heading scan of the table-of-contents panel (`updateTOC`): every line
    of the document is trimmed and matched against `^(#{1,6})\s+(.+)$`; a
    match becomes an entry carrying the 1-based line number, the heading level
    (the number of `#`), the title (the second group) and the offset of the
    line's start, which is where a click on the entry moves the cursor. With
    no match at all the panel shows a single placeholder item. */
module Toc {
  import opened Optional
  import opened JsString

  datatype Heading = Heading(level: nat, title: string)

  /** One item of the panel: a heading entry, or the "no headers" note. */
  datatype TocItem =
    | Entry(line: nat, level: nat, title: string, from: nat)
    | Placeholder(text: string)

  const NoHeadersText: string := "(No headers found)"

  // ---------------------------------------------------------------------
  // The heading pattern

  /** Length of the maximal run of `#` at the start of `t`. */
  function HashRun(t: string): (k: nat)
    ensures k <= |t|
    ensures forall i :: 0 <= i < k ==> t[i] == '#'
    ensures k < |t| ==> t[k] != '#'
  {
    if |t| > 0 && t[0] == '#' then 1 + HashRun(t[1..]) else 0
  }

  predicate NoLineTerminator(s: string) {
    forall i :: 0 <= i < |s| ==> !IsLineTerminator(s[i])
  }

  /** `t` is in the language of `^(#{1,6})\s+(.+)$` with the first group of
      length `k` and `\s+` of length `w`; `.` refuses line terminators. */
  ghost predicate RegexAccepts(t: string, k: nat, w: nat) {
    && 1 <= k <= 6 && 1 <= w && k + w < |t|
    && (forall i :: 0 <= i < k ==> t[i] == '#')
    && (forall i :: k <= i < k + w ==> IsSpace(t[i]))
    && NoLineTerminator(t[k + w..])
  }

  /** The split a backtracking matcher reports: greedy quantifiers take the
      longest first group, then the longest `\s+`, that still match. */
  ghost predicate GreedyCapture(t: string, k: nat, w: nat) {
    && RegexAccepts(t, k, w)
    && forall k': nat, w': nat :: RegexAccepts(t, k', w') ==> k' < k || (k' == k && w' <= w)
  }

  /** `t.match(/^(#{1,6})\s+(.+)$/)`, reporting the two groups as level and
      title. */
  function MatchHeading(t: string): Option<Heading> {
    var k := HashRun(t);
    if k < 1 || 6 < k then None
    else
      var run := SpaceRun(t, k);
      // `.+` needs at least one character, so a `\s` run reaching the end
      // gives its last character back
      var w: int := if k + run < |t| then run else run - 1;
      if w < 1 || !NoLineTerminator(t[k + w..]) then None
      else Some(Heading(k, t[k + w..]))
  }

  /** A match is `#`s, then whitespace, then a non-empty title running to the
      end of the text without a line break. */
  lemma MatchHeadingShape(t: string)
    ensures var r := MatchHeading(t);
      r.Some? ==>
      && 1 <= r.value.level <= 6 && r.value.level == HashRun(t)
      && 0 < |r.value.title| && r.value.level + |r.value.title| < |t|
      && t[|t| - |r.value.title|..] == r.value.title
      && AllSpace(t[r.value.level..|t| - |r.value.title|])
      && NoLineTerminator(r.value.title)
  {
    var k := HashRun(t);
    if MatchHeading(t).Some? {
      var run := SpaceRun(t, k);
      var w: int := if k + run < |t| then run else run - 1;
      assert AllSpace(t[k..k + w]);
    }
  }

  lemma AcceptedSplit(t: string, k: nat, w: nat)
    requires RegexAccepts(t, k, w)
    ensures k == HashRun(t)
    ensures w <= SpaceRun(t, k)
  {
    assert IsSpace(t[k]);
  }

  lemma AcceptedMatches(t: string, k: nat, w: nat)
    requires RegexAccepts(t, k, w)
    ensures MatchHeading(t).Some?
  {
    AcceptedSplit(t, k, w);
    var run := SpaceRun(t, k);
    var w0: int := if k + run < |t| then run else run - 1;
    assert w <= w0;
    assert t[k + w0..] == t[k + w..][w0 - w..];
  }

  /** `MatchHeading` is exactly the regular expression: it fails iff no split
      of the text fits the pattern, and otherwise reports the greedy groups. */
  lemma MatchHeadingIsGreedyRegex(t: string)
    ensures MatchHeading(t).None? <==> forall k: nat, w: nat :: !RegexAccepts(t, k, w)
    ensures MatchHeading(t).Some? ==>
      var h := MatchHeading(t).value;
      exists w :: GreedyCapture(t, h.level, w) && h.title == t[h.level + w..]
  {
    forall k': nat, w': nat | RegexAccepts(t, k', w') ensures MatchHeading(t).Some? {
      AcceptedMatches(t, k', w');
    }
    var k := HashRun(t);
    if MatchHeading(t).Some? {
      MatchHeadingShape(t);
      var h := MatchHeading(t).value;
      var w := |t| - k - |h.title|;
      assert t[k + w..] == h.title;
      assert RegexAccepts(t, k, w) by {
        forall i | k <= i < k + w ensures IsSpace(t[i]) {
          assert t[k..|t| - |h.title|][i - k] == t[i];
        }
      }
      forall k': nat, w': nat | RegexAccepts(t, k', w') ensures k' < k || (k' == k && w' <= w) {
        AcceptedSplit(t, k', w');
      }
      assert GreedyCapture(t, k, w);
    }
  }

  // ---------------------------------------------------------------------
  // Lines

  /** Whether a document line yields an entry, and which. */
  function ParseLine(line: string): Option<Heading> {
    MatchHeading(Trim(line))
  }

  /** An entry's level is its count of leading `#` (one to six) and its title
      is the non-empty, already trimmed tail of the trimmed line, separated
      from the `#`s by whitespace only. */
  lemma ParseLineShape(line: string)
    ensures var r := ParseLine(line);
      r.Some? ==>
      var t := Trim(line);
      && 1 <= r.value.level <= 6
      && 0 < |r.value.title| && IsTrimmed(r.value.title)
      && r.value.level == HashRun(t)
      && r.value.level < |t| - |r.value.title|
      && t[|t| - |r.value.title|..] == r.value.title
      && AllSpace(t[r.value.level..|t| - |r.value.title|])
  {
    var t := Trim(line);
    MatchHeadingShape(t);
    var r := MatchHeading(t);
    if r.Some? {
      var h := r.value;
      var b := |t| - |h.title|;
      assert h.title[|h.title| - 1] == t[|t| - 1];
      assert h.title[0] == t[b];
      var run := SpaceRun(t, h.level);
      assert h.level + run < |t|;
      assert b == h.level + run;
    }
  }

  /** A line yields an entry exactly when its trimmed text is in the
      language of the pattern, and the entry carries the greedy groups. */
  lemma ParseLineIsRegex(line: string)
    ensures ParseLine(line).Some? <==> exists k: nat, w: nat :: RegexAccepts(Trim(line), k, w)
    ensures ParseLine(line).Some? ==>
      var t := Trim(line);
      var h := ParseLine(line).value;
      exists w :: GreedyCapture(t, h.level, w) && h.title == t[h.level + w..]
  {
    MatchHeadingIsGreedyRegex(Trim(line));
  }

  /** Leading and trailing whitespace never affect recognition: `trim` and
      `\s` use the same whitespace set. */
  lemma PaddingIrrelevant(p: string, line: string, q: string)
    requires AllSpace(p) && AllSpace(q)
    ensures ParseLine(p + line + q) == ParseLine(line)
  {
    TrimIgnoresPadding(p, line, q);
  }

  /** Seven or more leading `#` never make an entry. */
  lemma TooManyHashes(line: string)
    requires var t := Trim(line); |t| >= 7 && forall i :: 0 <= i < 7 ==> t[i] == '#'
    ensures ParseLine(line).None?
  {
    var t := Trim(line);
    assert HashRun(t) >= 7 by {
      HashRunAtLeast(t, 7);
    }
  }

  /** A line of nothing but `#` never makes an entry: the title is empty. */
  lemma OnlyHashes(line: string)
    requires var t := Trim(line); forall i :: 0 <= i < |t| ==> t[i] == '#'
    ensures ParseLine(line).None?
  {
    var t := Trim(line);
    HashRunAtLeast(t, |t|);
  }

  /** A `#` run followed by something other than whitespace (`#title`) never
      makes an entry. */
  lemma HashesThenNonSpace(line: string)
    requires var t := Trim(line); HashRun(t) < |t| && !IsSpace(t[HashRun(t)])
    ensures ParseLine(line).None?
  {
  }

  lemma {:induction false} HashRunAtLeast(t: string, n: nat)
    requires n <= |t| && forall i :: 0 <= i < n ==> t[i] == '#'
    ensures HashRun(t) >= n
  {
    if n > 0 {
      HashRunAtLeast(t[1..], n - 1);
    }
  }

  predicate IsHeadingLine(line: string) {
    ParseLine(line).Some?
  }

  // ---------------------------------------------------------------------
  // Line offsets

  /** CodeMirror's `doc.line(i + 1).from`: offset of the start of line `i`
      (0-based), counted in UTF-16 code units as CodeMirror counts, with one
      separator between lines. */
  function LineStart(lines: seq<string>, i: nat): nat
    requires i <= |lines|
  {
    if i == 0 then 0 else LineStart(lines, i - 1) + Utf16Length(lines[i - 1]) + 1
  }

  /** The index of the first character of line `i` in the document text. */
  function CharStart(lines: seq<string>, i: nat): nat
    requires i <= |lines|
  {
    if i == 0 then 0 else CharStart(lines, i - 1) + |lines[i - 1]| + 1
  }

  /** The document text: its lines joined by a line break. */
  function Join(lines: seq<string>): string
    decreases |lines|
  {
    if |lines| == 0 then ""
    else if |lines| == 1 then lines[0]
    else Join(lines[..|lines| - 1]) + "\n" + lines[|lines| - 1]
  }

  lemma {:induction false} CharStartOfPrefix(lines: seq<string>, n: nat, i: nat)
    requires i <= n <= |lines|
    ensures CharStart(lines[..n], i) == CharStart(lines, i)
    decreases i
  {
    if i > 0 {
      CharStartOfPrefix(lines, n, i - 1);
      assert lines[..n][i - 1] == lines[i - 1];
    }
  }

  lemma {:induction false} LineStartOfPrefix(lines: seq<string>, n: nat, i: nat)
    requires i <= n <= |lines|
    ensures LineStart(lines[..n], i) == LineStart(lines, i)
    decreases i
  {
    if i > 0 {
      LineStartOfPrefix(lines, n, i - 1);
      assert lines[..n][i - 1] == lines[i - 1];
    }
  }

  lemma {:induction false} JoinLength(lines: seq<string>)
    requires |lines| > 0
    ensures |Join(lines)| + 1 == CharStart(lines, |lines|)
    ensures Utf16Length(Join(lines)) + 1 == LineStart(lines, |lines|)
    decreases |lines|
  {
    var n := |lines|;
    if n > 1 {
      var init := lines[..n - 1];
      JoinLength(init);
      CharStartOfPrefix(lines, n - 1, n - 1);
      LineStartOfPrefix(lines, n - 1, n - 1);
      Utf16LengthAppend(Join(init), "\n");
      Utf16LengthAppend(Join(init) + "\n", lines[n - 1]);
    }
  }

  /** An entry's target really is the start of its line: the document text
      holds line `i` at character index `CharStart(lines, i)`, right after a
      line break. */
  lemma {:induction false} LineStartLocatesLine(lines: seq<string>, i: nat)
    requires i < |lines|
    ensures CharStart(lines, i) + |lines[i]| <= |Join(lines)|
    ensures Join(lines)[CharStart(lines, i)..CharStart(lines, i) + |lines[i]|] == lines[i]
    ensures i > 0 ==> Join(lines)[CharStart(lines, i) - 1] == '\n'
    decreases |lines|
  {
    var n := |lines|;
    if n > 1 {
      var init := lines[..n - 1];
      var j := Join(init);
      assert Join(lines) == j + "\n" + lines[n - 1];
      JoinLength(init);
      CharStartOfPrefix(lines, n - 1, n - 1);
      if i < n - 1 {
        LineStartLocatesLine(init, i);
        CharStartOfPrefix(lines, n - 1, i);
        assert Join(lines)[..|j|] == j;
      } else {
        assert CharStart(lines, i) == |j| + 1;
        assert Join(lines)[|j| + 1..] == lines[n - 1];
      }
    }
  }

  /** The text before line `i` is the earlier lines, each followed by its
      line break. */
  lemma {:induction false} TextBeforeLine(lines: seq<string>, i: nat)
    requires 0 < i < |lines|
    ensures CharStart(lines, i) <= |Join(lines)|
    ensures Join(lines)[..CharStart(lines, i)] == Join(lines[..i]) + "\n"
    decreases |lines|
  {
    var n := |lines|;
    var init := lines[..n - 1];
    var j := Join(init);
    assert Join(lines) == j + "\n" + lines[n - 1];
    JoinLength(init);
    CharStartOfPrefix(lines, n - 1, n - 1);
    if i < n - 1 {
      TextBeforeLine(init, i);
      CharStartOfPrefix(lines, n - 1, i);
      assert Join(lines)[..|j|] == j;
      assert init[..i] == lines[..i];
    } else {
      assert init == lines[..i];
    }
  }

  /** `LineStart` is the position CodeMirror reports: the length, in UTF-16
      code units, of all the text before line `i`. */
  lemma LineStartIsUtf16Offset(lines: seq<string>, i: nat)
    requires i < |lines|
    ensures CharStart(lines, i) <= |Join(lines)|
    ensures Utf16Length(Join(lines)[..CharStart(lines, i)]) == LineStart(lines, i)
  {
    if i > 0 {
      TextBeforeLine(lines, i);
      JoinLength(lines[..i]);
      LineStartOfPrefix(lines, i, i);
      Utf16LengthAppend(Join(lines[..i]), "\n");
    }
  }

  /** In a document whose characters all lie in the Basic Multilingual
      Plane, the UTF-16 offset of a line is its character index. */
  lemma {:induction false} BmpLineStartIsCharStart(lines: seq<string>, i: nat)
    requires i <= |lines|
    requires forall k, c :: 0 <= k < |lines| && 0 <= c < |lines[k]| ==> lines[k][c] as int <= 0xFFFF
    ensures LineStart(lines, i) == CharStart(lines, i)
  {
    if i > 0 {
      BmpLineStartIsCharStart(lines, i - 1);
      Utf16LengthOfBmp(lines[i - 1]);
    }
  }

  /** A line holding one character beyond U+FFFF pushes the next line's
      start three code units on, two for the surrogate pair and one for the
      line break, while its character index is 2. */
  lemma AstralCharShiftsOffsets()
    ensures LineStart(["\U{1F600}", "# A"], 1) == 3
    ensures CharStart(["\U{1F600}", "# A"], 1) == 2
  {
    assert ["\U{1F600}", "# A"][0] == "\U{1F600}";
    assert "\U{1F600}"[..0] == "";
  }

  // ---------------------------------------------------------------------
  // The panel

  /** The outcome of the pattern for every line, in order. */
  function ParsedLines(lines: seq<string>): (hs: seq<Option<Heading>>)
    ensures |hs| == |lines|
    decreases |lines|
  {
    if |lines| == 0 then []
    else ParsedLines(lines[..|lines| - 1]) + [ParseLine(lines[|lines| - 1])]
  }

  lemma {:induction false} ParsedLineAt(lines: seq<string>, j: nat)
    requires j < |lines|
    ensures ParsedLines(lines)[j] == ParseLine(lines[j])
    decreases |lines|
  {
    if j < |lines| - 1 {
      ParsedLineAt(lines[..|lines| - 1], j);
    }
  }

  /** `item` is the entry made for its line, given each line's parse `hs`. */
  predicate EntryFor(hs: seq<Option<Heading>>, lines: seq<string>, item: TocItem)
    requires |hs| == |lines|
  {
    && item.Entry?
    && 1 <= item.line <= |hs|
    && hs[item.line - 1] == Some(Heading(item.level, item.title))
    && item.from == LineStart(lines, item.line - 1)
  }

  /** The line numbers of a list of items, in order. */
  function LinesOf(items: seq<TocItem>): (ls: seq<nat>)
    ensures |ls| == |items|
    ensures forall k :: 0 <= k < |items| && items[k].Entry? ==> ls[k] == items[k].line
  {
    if |items| == 0 then []
    else LinesOf(items[..|items| - 1]) + [if items[|items| - 1].Entry? then items[|items| - 1].line else 0]
  }

  /** Every item is the entry of a heading among the first `n` lines. */
  predicate EntriesSound(hs: seq<Option<Heading>>, lines: seq<string>, n: nat, entries: seq<TocItem>)
    requires |hs| == |lines|
  {
    forall k :: 0 <= k < |entries| ==> EntryFor(hs, lines, entries[k]) && entries[k].line <= n
  }

  /** Strictly ascending line numbers: line order, no line twice. */
  predicate Ascending(entries: seq<TocItem>) {
    forall k, m :: 0 <= k < m < |entries| && entries[k].Entry? && entries[m].Entry? ==>
      entries[k].line < entries[m].line
  }

  /** Every heading among the first `n` lines has an item. */
  predicate EntriesComplete(hs: seq<Option<Heading>>, n: nat, entries: seq<TocItem>)
    requires n <= |hs|
  {
    forall j :: 0 <= j < n && hs[j].Some? ==> j + 1 in LinesOf(entries)
  }

  /** The complete table of contents of a document: one entry per heading
      line, in ascending line order, and nothing else. */
  predicate HeadingsOf(lines: seq<string>, items: seq<TocItem>) {
    var hs := ParsedLines(lines);
    && EntriesSound(hs, lines, |lines|, items)
    && Ascending(items)
    && EntriesComplete(hs, |lines|, items)
  }

  /** Reference definition of the scan: the entries for the first `n` lines,
      one per line whose parse succeeded, in line order. */
  function Collect(hs: seq<Option<Heading>>, lines: seq<string>, n: nat): seq<TocItem>
    requires |hs| == |lines| && n <= |lines|
  {
    if n == 0 then []
    else
      Collect(hs, lines, n - 1)
      + (if hs[n - 1].Some?
         then [Entry(n, hs[n - 1].value.level, hs[n - 1].value.title, LineStart(lines, n - 1))]
         else [])
  }

  lemma {:induction false} CollectSound(hs: seq<Option<Heading>>, lines: seq<string>, n: nat)
    requires |hs| == |lines| && n <= |lines|
    ensures EntriesSound(hs, lines, n, Collect(hs, lines, n))
    ensures Ascending(Collect(hs, lines, n))
    decreases n
  {
    if n > 0 {
      CollectSound(hs, lines, n - 1);
      var prev := Collect(hs, lines, n - 1);
      if hs[n - 1].Some? {
        var e := Entry(n, hs[n - 1].value.level, hs[n - 1].value.title, LineStart(lines, n - 1));
        var es := prev + [e];
        assert Collect(hs, lines, n) == es;
        assert EntryFor(hs, lines, e);
        assert forall k :: 0 <= k < |prev| ==> es[k] == prev[k];
      } else {
        assert Collect(hs, lines, n) == prev;
      }
    }
  }

  lemma {:induction false} CollectComplete(hs: seq<Option<Heading>>, lines: seq<string>, n: nat)
    requires |hs| == |lines| && n <= |lines|
    ensures EntriesComplete(hs, n, Collect(hs, lines, n))
    ensures |Collect(hs, lines, n)| > 0 <==> exists j :: 0 <= j < n && hs[j].Some?
    decreases n
  {
    if n > 0 {
      CollectComplete(hs, lines, n - 1);
      var prev := Collect(hs, lines, n - 1);
      if hs[n - 1].Some? {
        var e := Entry(n, hs[n - 1].value.level, hs[n - 1].value.title, LineStart(lines, n - 1));
        assert Collect(hs, lines, n) == prev + [e];
        assert LinesOf(prev + [e]) == LinesOf(prev) + [n] by {
          assert (prev + [e])[..|prev|] == prev;
        }
      } else {
        assert Collect(hs, lines, n) == prev;
      }
    }
  }

  lemma ParsedLinesMatch(lines: seq<string>)
    ensures forall j :: 0 <= j < |lines| ==> (IsHeadingLine(lines[j]) <==> ParsedLines(lines)[j].Some?)
  {
    forall j | 0 <= j < |lines| ensures IsHeadingLine(lines[j]) <==> ParsedLines(lines)[j].Some? {
      ParsedLineAt(lines, j);
    }
  }

  /** The scan of all lines: empty exactly when no line parsed, otherwise
      sound, ascending and complete, starting with an entry. */
  lemma CollectAll(hs: seq<Option<Heading>>, lines: seq<string>)
    requires |hs| == |lines|
    ensures var entries := Collect(hs, lines, |lines|);
      && EntriesSound(hs, lines, |lines|, entries)
      && Ascending(entries)
      && EntriesComplete(hs, |lines|, entries)
      && (|entries| == 0 <==> forall j :: 0 <= j < |lines| ==> hs[j].None?)
      && (|entries| > 0 ==> entries[0].Entry?)
  {
    CollectSound(hs, lines, |lines|);
    CollectComplete(hs, lines, |lines|);
  }

  /** The full reference scan is the table of contents whenever it is not
      empty. */
  lemma TocOutcome(lines: seq<string>, entries: seq<TocItem>)
    requires entries == Collect(ParsedLines(lines), lines, |lines|)
    ensures |entries| > 0 ==> HeadingsOf(lines, entries) && entries[0].Entry?
  {
    CollectAll(ParsedLines(lines), lines);
  }

  /** The full reference scan is empty exactly when no line is a heading. */
  lemma TocEmpty(lines: seq<string>, entries: seq<TocItem>)
    requires entries == Collect(ParsedLines(lines), lines, |lines|)
    ensures |entries| == 0 <==> forall j :: 0 <= j < |lines| ==> !IsHeadingLine(lines[j])
  {
    CollectAll(ParsedLines(lines), lines);
    ParsedLinesMatch(lines);
  }

  /** One step of the scan: line `i` contributes the entry its match makes,
      if it matched. */
  lemma ScanStep(lines: seq<string>, i: nat)
    requires 1 <= i <= |lines|
    ensures var m := MatchHeading(Trim(lines[i - 1]));
      Collect(ParsedLines(lines), lines, i) == Collect(ParsedLines(lines), lines, i - 1)
      + (if m.Some? then [Entry(i, m.value.level, m.value.title, LineStart(lines, i - 1))] else [])
  {
    ParsedLineAt(lines, i - 1);
  }

  /** The loop of `updateTOC`: lines 1..n in order, an entry per match,
      remembering whether anything matched. */
  method Scan(lines: seq<string>) returns (entries: seq<TocItem>, hasHeaders: bool)
    ensures entries == Collect(ParsedLines(lines), lines, |lines|)
    ensures hasHeaders <==> |entries| > 0
  {
    entries := [];
    hasHeaders := false;
    var from := 0;
    var i := 1;
    while i <= |lines|
      invariant 1 <= i <= |lines| + 1
      invariant from == LineStart(lines, i - 1)
      invariant entries == Collect(ParsedLines(lines), lines, i - 1)
      invariant hasHeaders <==> |entries| > 0
    {
      var line := lines[i - 1];
      var text := Trim(line);
      var m := MatchHeading(text);
      ScanStep(lines, i);
      if m.Some? {
        hasHeaders := true;
        entries := entries + [Entry(i, m.value.level, m.value.title, from)];
      }
      from := from + Utf16Length(line) + 1;
      i := i + 1;
    }
  }

  /** `updateTOC`: the entries of the scan, or the placeholder when nothing
      matched. */
  method UpdateToc(lines: seq<string>) returns (items: seq<TocItem>)
    ensures (exists j :: 0 <= j < |lines| && IsHeadingLine(lines[j])) ==> HeadingsOf(lines, items)
    ensures (forall j :: 0 <= j < |lines| ==> !IsHeadingLine(lines[j]))
              <==> items == [Placeholder(NoHeadersText)]
  {
    var entries, hasHeaders := Scan(lines);
    TocOutcome(lines, entries);
    TocEmpty(lines, entries);
    if !hasHeaders {
      items := entries + [Placeholder(NoHeadersText)];
    } else {
      items := entries;
    }
  }
}
