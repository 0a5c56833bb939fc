# Markdown editor core in Dafny

This project models three small pieces of logic from a browser markdown
editor with a live preview, and proves properties about them.

- **Scroll lock** (`ScrollSync`, `scroll_sync.dfy`). The editor and the
  preview each forward their scroll position to the other pane. Two flags,
  `isScrollingEditor` and `isScrollingPreview`, stop the echo scroll from
  bouncing back. A 100 ms debounce timer clears both flags.
  - A handler call is a list of effects in program order: set a flag, sync
    the other pane, clear the old timer, arm a new one.
  - The browser's table of pending timers is part of the state.
  - Time passing is an explicit `TimerFire(handle)` event.
  - The proofs cover:
    - mutual exclusion of the two flags in every reachable state;
    - at most one live timer;
    - the lock is set before any sync command is issued;
    - echo scrolls are ignored until the timer fires;
    - a pending timer always releases the lock.
- **Table of contents** (`Toc`, `toc.dfy`). This is the line loop of
  `updateTOC`. Every line is trimmed and matched against
  `^(#{1,6})\s+(.+)$`.
  - A match becomes an entry: 1-based line number, level, title, and the
    offset of the line's start.
  - With no match at all the panel shows `(No headers found)`.
  - The pattern is modelled exactly, including the backtracking of the
    greedy `\s+` when `(.+)` would otherwise be left empty. It is proved
    equal to a declarative description of the regular expression's
    language and greedy groups.
  - The loop is proved equal to a recursive reference scan. That scan is
    proved sound, in ascending line order and complete.
- **Source-line tagger** (`LineTagger`, `line_tagger.dfy`).
  - `injectLineNumber` sets `data-source-line` to `String(map[0] + 1)`.
    markdown-it's `attrIndex`, `attrGet` and `attrSet` are modelled.
  - The two loops wrap the renderer rules: every opener kind, falling back
    to `renderToken`, and every complex kind that already had a rule.
  - Rules are data: a pre-existing rule, `renderToken`, or a wrapper.
    `Invoke` gives them their meaning.
- Shared pieces:
  - `JsString` (`js_string.dfy`) covers:
    - the ECMAScript whitespace and line-terminator sets, which
      `String.prototype.trim` and the regular-expression class `\s` share;
    - `trim`;
    - `String(n)` for integers, and a decimal reader that inverts it.
  - `Optional` (`optional.dfy`) holds the option type.

`src/scroll-sync.ts` maps one pane onto the other by a proportional ratio of
scroll positions. It has no edge clamps and no nearest-line index, and the
model has none either.

## Model

Most rows name a lemma or a contract about a function rather than the function itself. The functions that transcribe the source directly have no contract of their own beyond their body. These are `ScrollSync.Handle`, `Toc.MatchHeading`, `Toc.ParseLine`, `Toc.LineStart`, `JsString.IntToString` and `LineTagger.AttrGet`. The lemmas in the rows citing the same lines state what they mean.

| member | source | states |
|---|---|---|
| ScrollSync.IgnoredScroll | src/scroll-sync.ts:22-36 | A scroll from one pane while the other pane holds the lock has no effect: no flag change, no sync command, no timer re-armed. |
| ScrollSync.AcceptedScroll | src/scroll-sync.ts:22-64 | An accepted scroll, including a repeat from the pane that already holds the lock, does three things. It sets that pane's flag and leaves the other flag clear. It issues exactly one sync command, aimed at the other pane. It leaves exactly one pending timer, the new one, with the previous timer cancelled. |
| ScrollSync.IdleAcceptsScroll | src/scroll-sync.ts:6-36 | From the idle state a scroll from either pane is accepted and syncs the other pane. |
| ScrollSync.TimerFireReleases | src/scroll-sync.ts:60-63 | A pending timer firing clears both flags, whichever pane held the lock. It removes the timer and issues no command. |
| ScrollSync.LockIsReleasable | src/scroll-sync.ts:58-63 | Whenever a flag is set, some pending timer exists whose firing returns the lock to idle, so the lock cannot stay held for good. |
| ScrollSync.AtMostOneTimer | src/scroll-sync.ts:58-63 | Under the timer invariant at most one timer is live, and it is the one `timeout` records. |
| ScrollSync.StepValid | src/scroll-sync.ts:22-63 | Every event preserves the invariant. The invariant is: the two flags are never both set, at most one timer is live, and a held lock always has a pending timer. |
| ScrollSync.RunValid | src/scroll-sync.ts:22-63 | Any sequence of events preserves the invariant. |
| ScrollSync.ReachableMutualExclusion | src/scroll-sync.ts:6-63 | In every state reachable from a fresh instance, `isScrollingEditor` and `isScrollingPreview` are never both true, at most one timer is pending, and the whole invariant holds, so a held lock always has a pending timer. |
| ScrollSync.LockBeforeCommand | src/scroll-sync.ts:22-36 | At the point where any sync command is issued, the originating pane's flag is already set. So the echo scroll that the command causes is ignored at that point. |
| ScrollSync.EchoIgnoredUntilTimer | src/scroll-sync.ts:22-36 | While a pane holds the lock and no timer fires, every command issued targets the other pane and the lock stays with the holder: echoes never bounce back. |
| ScrollSync.RoundTripSingleCommand | src/scroll-sync.ts:22-36 | A user scroll followed by the echo it provokes issues exactly one command in total. |
| Toc.MatchHeadingShape | src/toc.ts:39-43 | A match has a level equal to the leading `#` count, between 1 and 6. Its title is a non-empty suffix of the text without line terminators. Only whitespace lies between the `#` run and the title. |
| Toc.MatchHeadingIsGreedyRegex | src/toc.ts:39 | The matcher fails exactly when no split of the text fits `^(#{1,6})\s+(.+)$`. Otherwise it reports the groups of the greedy split: the longest `#` run, then the longest whitespace run that still leaves a title. |
| Toc.ParseLineIsRegex | src/toc.ts:36-43 | A line yields an entry if and only if its trimmed text matches the pattern, and the entry carries the greedy groups. |
| Toc.ParseLineShape | src/toc.ts:36-43 | An entry's level is the `#` count of the trimmed line, in 1..6. Its title is non-empty, neither starts nor ends with whitespace, and is separated from the `#` run by whitespace only. |
| Toc.PaddingIrrelevant | src/toc.ts:36-39 | Whitespace added before or after a line never changes whether, or how, it is recognised. |
| Toc.TooManyHashes | src/toc.ts:39-42 | A trimmed line starting with seven or more `#` yields no entry. |
| Toc.OnlyHashes | src/toc.ts:39-42 | A trimmed line made only of `#`, including a bare `#`, yields no entry. |
| Toc.HashesThenNonSpace | src/toc.ts:39-42 | A `#` run followed by a character that is not whitespace yields no entry. |
| Toc.LineStartLocatesLine | src/toc.ts:35-52 | The document text holds each line at its character start index, right after a line break. |
| Toc.LineStartIsUtf16Offset | src/toc.ts:52 | An entry's navigation target is the length, in UTF-16 code units, of all the document text before its line, which is how CodeMirror counts `line.from`. |
| Toc.BmpLineStartIsCharStart | src/toc.ts:52 | When no character of the document lies beyond U+FFFF, an entry's offset in UTF-16 code units equals its line's character index. |
| Toc.AstralCharShiftsOffsets | src/toc.ts:52 | An example where they differ: after a line holding one emoji, the next line starts at UTF-16 offset 3 but at character index 2. |
| Toc.CollectSound | src/toc.ts:34-61 | The reference scan makes each item from a matching line. The item carries that line's number, level, title and start offset. Line numbers strictly ascend. |
| Toc.CollectComplete | src/toc.ts:34-61 | Every matching line has an item. The scan is empty exactly when no line matched. |
| Toc.TocOutcome | src/toc.ts:34-63 | A non-empty scan of the whole document is its table of contents: sound, ascending and complete. |
| Toc.TocEmpty | src/toc.ts:32-71 | The scan of the whole document is empty exactly when no line is a heading. |
| Toc.Scan | src/toc.ts:30-63 | The loop over lines 1..n equals the reference scan. It tracks each line's start offset. `hasHeaders` is set exactly when some entry was made. |
| Toc.UpdateToc | src/toc.ts:26-72 | If some line is a heading, the panel is the complete ascending list of heading entries and has no placeholder. If not, the panel is exactly the single `(No headers found)` item, and the converse holds too. |
| JsString.Trim | src/toc.ts:36 | `trim` returns text that neither starts nor ends with whitespace and is no longer than its input. |
| JsString.TrimRemovesOnlySpace | src/toc.ts:36 | `trim` returns a slice of its input with only whitespace cut off on either side. |
| JsString.TrimIgnoresPadding | src/toc.ts:36 | Whitespace added around a text does not change what `trim` returns. |
| JsString.TrimIdempotent | src/toc.ts:36 | Trimming twice equals trimming once. |
| JsString.NatToString | test-render.ts:25 | `String(n)` for a natural number is a non-empty run of decimal digits with no leading zero, except for zero itself, which is `"0"`. |
| JsString.IntToStringRoundTrip | test-render.ts:25 | Reading back the decimal text that `String(n)` writes yields `n`, for negative `n` too. |
| LineTagger.AttrIndex | test-render.ts:25 | `attrIndex` finds the first attribute with the given name, or -1 when there is none. |
| LineTagger.AttrSet | test-render.ts:25 | After `attrSet`, reading the name gives the new value, and every other name reads as before. When the name is present, its first entry is overwritten in place and the length stays the same. Otherwise one entry is appended at the end. Every other entry keeps its position, so the list renders in the same order. |
| LineTagger.AttrSetIdempotent | test-render.ts:25 | Setting the same attribute to the same value twice is the same as setting it once. |
| LineTagger.InjectLineNumber | test-render.ts:22-27 | When the token has a non-empty line map, its `data-source-line` becomes `String(map[0] + 1)`. Its attribute list is exactly the `attrSet` of that value on the old list, so the other attributes keep their values and their order. Its type, its line map and every other token are unchanged. When the map is null or empty, the stream is unchanged. |
| LineTagger.InjectIdempotent | test-render.ts:22-27 | Tagging a token twice gives the same stream as tagging it once. |
| LineTagger.TaggedLineIsOneBased | test-render.ts:24-25 | The tag reads back as the 0-based start line plus one. A non-negative start line gives a line number of at least 1. |
| LineTagger.Invoke | test-render.ts:43-58 | A wrapped rule, however deeply nested, renders what the original or `renderToken` renders on the tagged stream. It changes the stream only by tagging the token once. An unwrapped rule leaves the stream alone. |
| LineTagger.WrapOpeners | test-render.ts:43-49 | Every opener kind is wrapped around its original rule, or around `renderToken` when it had none. Every other kind is untouched. |
| LineTagger.WrapComplex | test-render.ts:51-62 | `fence`, `code_block` and `image` are wrapped only when they had a rule. Otherwise they stay absent. Every other kind is untouched. |
| LineTagger.Setup | test-render.ts:32-62 | After both loops, exactly two groups of kinds have a changed rule: the eight opener kinds, and the complex kinds that had a rule. Every other kind, inline kinds included, keeps its rule. |

## Left out

- The ratio arithmetic of `syncPreview` and `syncEditor` (`src/scroll-sync.ts:38-56`) is left out. It is floating-point division over DOM scroll metrics and divides by zero when the content fits the viewport. A sync is the abstract `Sync(target)` effect.
- The `addEventListener` wiring (`src/scroll-sync.ts:17-20`) and the real 100 ms clock are left out. The timer callback is the explicit `TimerFire(handle)` event. Browser timer handles are positive integers, handed out in increasing order.
- The DOM side of `src/toc.ts` is left out: the panel toggle, click-outside, element creation and the CodeMirror dispatch (lines 1-24, 45-59). An entry's click target is only its `from` offset.
- CodeMirror's document model is left out. The document is given as its list of lines joined by one-character line breaks. Offsets are counted in UTF-16 code units, as CodeMirror counts them.
- Toc.MatchHeadingIsGreedyRegex: strings here are sequences of Unicode scalar values. A JavaScript string can also hold a lone surrogate, which `.` matches, and such strings are not covered.
- The markdown-it and highlight.js configuration and the console output of `test-render.ts` (lines 1-19, 29-30, 60, 64-68) are left out. So is markdown-it's render loop, which calls the rules.
- LineTagger.Invoke: a pre-existing renderer rule is modelled as not changing the token stream. markdown-it's default `image` rule also overwrites the token's `alt` attribute with the text of its children. This model does not cover that.
- JavaScript numbers are unbounded integers here. `String(map[0] + 1)` beyond 2^53 is not modelled.
- Not part of this model:
  - `src/fs-access.ts`: file I/O;
  - `src/main.ts`: bootstrapping and storage;
  - `src/editor.ts` and `src/preview.ts`: wrappers over third-party widgets;
  - `src/resizer.ts`: mouse events and floating-point layout;
  - `src/types.d.ts`: declarations.
