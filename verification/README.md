# Typed-music notation engine, modelled in Dafny

The program is a rich-text page where typing plays music. A paragraph whose
trimmed text ends in `.` plays once when it is first completed. Each
`[ ... ]` block inside such a paragraph starts a repeating loop. Inside an
open `( ... )`, each key sounds as it is typed. A `/` is a two-second rest,
`?` makes a word's notes random, `!` accents a word, and a `"..."` span is
muted. The font colour of a letter picks the oscillator, and its other
styles shape the sound.

This project models the notation engine at the heart of `script.js`:

- `letterToNote` and `colorToTone` (module `Notes`, on top of `JsText` for
  the string built-ins the code uses);
- `stripQuoted` and `findLoopBlocks` (module `Parsing`);
- `buildLetterEntries`, with the DOM tree walk given as a sequence of text
  runs with their resolved styles (module `Letters`);
- `tokensFromTextAndLetters` (modules `Tokenizer` and `TokenizerLaws`);
- `scheduleTokens`, timing only, with the synthesiser as an event log
  (module `Timeline`);
- the `activeLoops` table kept by `updateParagraphs`, `playParagraphOnce`,
  `stopAll` and the interval callbacks: a specification on `Table` values
  (module `Loops`) and a class `Player` whose methods update the table in
  place and are proved to reach the state the specification describes
  (module `Playback`);
- `isInsideParens` and the keydown decision (module `Live`).

Units and representations:

- Durations are modelled as exact integers in centiseconds. `BASE_DUR`
  0.34 s is 34, `REST_DUR` 2.0 s is 200, and the `|| 0.2` loop fallback
  is 20. The interval period `loopDur * 1000` ms is modelled as
  `10 * loopDur` milliseconds.
- `setInterval` hands out fresh integer handles from a counter and records a
  timer: the paragraph it serves, the tokens it replays and its period.
  `clearInterval` removes the handle.
- Every `triggerAttackRelease` that `scheduleTokens` makes becomes a
  `Trigger` event with its pitches, the style handed to `applyStyleToSound`
  just before it, its time and its length. `releaseAll` becomes a
  `ReleaseAll` event. The keydown handler's own `triggerAttackRelease` and
  `releaseAll` calls are not logged: its decision is a `KeyAction`, `Play`
  with a pitch and the caret's style, or `Silence` with the caret's style.
- `randomNote()` is the pitch `Random`, standing for some element of the
  note pool.
- `Tone.now()` is a parameter `now`.

Three behaviours of the code are worth knowing:

- `findLoopBlocks` uses the non-greedy regular expression `/\[(.*?)\]/g`,
  not a stack-based bracket matcher. So `[a[b]c]` yields the block `[a[b]`
  (`Parsing.NestedBracketsCloseAtFirst`). Brackets inside quotes are not
  skipped, and a block never spans a line break.
- A quoted span is removed from the snippet, but the letter entries still
  hold its letters (script.js:449-451). The words after a quote therefore
  sound the quoted letters first, instead of keeping their own alignment.
- A loop's tokens consume letters from index 0 of the whole paragraph
  (script.js:507-509). A loop therefore sounds the paragraph's first
  letters, with their styles, not the letters inside its brackets.

## Model

| member | source | states |
|---|---|---|
| Notes.JsRem | script.js:61 | JavaScript's `%` truncates: the dividend minus the remainder is a multiple of `b`; for a non-negative dividend it is Dafny's remainder in `[0, b)`, and for a negative one it lies in `(-b, 0]`. The helper lemmas `RemDiffers` and `RemOfMultiple` carry the divisibility arithmetic |
| Notes.NoteIndex | script.js:61-62 | the clamped pool index; `NoteIndexBounds` states its range, its direct and wrapped letters, and the clamp to 0 |
| Notes.LetterToNote | script.js:60-63 | `letterToNote`; its properties are the lemmas `NoteIndexBounds`, `LetterToNoteInPool`, `LetterToNoteIgnoresCase` and `LowCodesClampToFirstNote` |
| Notes.NoteIndexBounds | script.js:60-63 | the clamped pool index is always inside the 21-entry pool; `a`..`u` give 0..20, `v`..`z` wrap to 0..4, and a character whose lower case is below `a` clamps to 0 |
| Notes.LetterToNoteInPool | script.js:37-63 | `letterToNote` is total and always returns an element of `NOTE_POOL` |
| Notes.LetterToNoteIgnoresCase | script.js:60-63 | an upper-case letter plays the same note as its lower case, at index `c - 'A'` or, wrapped, `c - 'V'` |
| Notes.LowCodesClampToFirstNote | script.js:61-62 | any character whose code is below `a` after lower-casing (digits, punctuation) plays `C3` |
| Notes.RemoveSpaces | script.js:79 | `replace(/\s/g, "")` leaves no whitespace and never lengthens the string; one character is kept exactly when it is not whitespace |
| Notes.RemoveSpacesAppend | script.js:79 | whitespace removal distributes over concatenation, so the kept characters stay in their order |
| Notes.NormalizeColor | script.js:79 | lower-casing and whitespace removal; its properties are `NormalizeIdempotent`, `LowerRemoveSpaces` and `ColorToToneIgnoresCaseAndSpacing` |
| Notes.IsBlue | script.js:80 | the colour includes `0,0,255` or `blue`; `ColorToTone` states that sine is chosen exactly when it holds |
| Notes.IsGreen | script.js:82 | the colour includes `0,128,0` or `green`; `ColorToTone` states that square is chosen exactly when it holds and blue does not |
| Notes.IsRed | script.js:84 | the colour includes `255,0,0` or `red`; `ColorToTone` states that drive is added exactly when it holds and neither blue nor green does |
| Notes.ColorToTone | script.js:78-87 | blue (by name or `0,0,255`) gives sine; otherwise green gives square; otherwise red gives triangle with drive; otherwise triangle without. Each is an if-and-only-if on the normalised colour, and only the red bucket has drive |
| Notes.LowerIdempotent | script.js:79 | lower-casing twice is lower-casing once |
| Notes.RemoveSpacesOfSpaceFree | script.js:79 | removing whitespace from a string that has none changes nothing |
| Notes.LowerRemoveSpaces | script.js:79 | lower-casing and whitespace removal commute |
| Notes.NormalizeIdempotent | script.js:79 | normalising a colour string twice is normalising it once |
| Notes.ColorToToneIgnoresCaseAndSpacing | script.js:78-87 | the tone of a colour is the tone of its normalised form, so case and spacing never change the tone |
| JsText.IsLetter | script.js:313 | the class `[a-zA-Z]`; `LettersOnly`, `NextLetter` and `EntriesIndexed` state which characters it selects in each use |
| JsText.IsSpace | script.js:340 | the class `\s`; `TrimSpan` and `RemoveSpaces` state how the engine drops it, and `SplitRawSeparator` how it separates words |
| JsText.Contains | script.js:80-85 | `includes`; `ContainsAt` states it holds exactly when the needle occurs at some position |
| JsText.ContainsAt | script.js:80-85 | `includes` holds exactly when the needle occurs at some position of the text |
| JsText.EndsWith | script.js:479 | `endsWith` for one character; `TrimEndsWith` states what it means after `trim()` |
| JsText.TrimEndsWith | script.js:466-479 | the trimmed text ends with a non-space character exactly when that is the text's last non-whitespace character |
| JsText.LowerAscii | script.js:61 | `toLowerCase` on one character moves `A`..`Z` up by 32 and leaves every other character alone |
| JsText.Lower | script.js:79 | `toLowerCase` keeps the length and lower-cases each character |
| JsText.LastIndexOf | script.js:582-583 | `lastIndexOf` is -1 or a position of the character, with no occurrence after it |
| JsText.TrimStart | script.js:448 | the result is a suffix of the input that does not start with whitespace |
| JsText.TrimStartDropsSpaces | script.js:448 | the characters dropped at the front are all whitespace, and what is left is a suffix starting with a non-space |
| JsText.TrimEnd | script.js:448 | the result is a prefix of the input that does not end with whitespace |
| JsText.TrimEndDropsSpaces | script.js:448 | the characters dropped at the back are all whitespace, and what is left is a prefix ending with a non-space |
| JsText.Trim | script.js:448 | `trim()` leaves no whitespace at either end |
| JsText.TrimSpan | script.js:448 | `trim()` returns an infix of the input with only whitespace before and after it |
| JsText.CountCharAppend | script.js:274-275 | occurrences of a character in a concatenation add up |
| JsText.CountLettersAppend | script.js:313-321 | letters in a concatenation add up |
| JsText.CountLettersPrefix | script.js:313-321 | a longer prefix holds at least as many letters, and one more when it adds a letter |
| Parsing.StripQuoted | script.js:274-276 | `stripQuoted` never lengthens its input |
| Parsing.StripQuotedKeepsUnquoted | script.js:274-276 | text with at most one `"` comes out unchanged |
| Parsing.StripQuotedSpan | script.js:274-276 | a complete `"…"` span becomes exactly one space; the text before it is kept in order and the rest is stripped in turn |
| Parsing.StripQuotedQuoteParity | script.js:274-276 | the output keeps exactly one `"` when the input has an odd number of them, and none when it has an even number |
| Parsing.StripQuotedIdempotent | script.js:274-276 | at most one `"` remains, so stripping again changes nothing |
| Parsing.CloseFrom | script.js:279 | the lazy `(.*?)\]` closes at a `]` at or after the start; when it finds none, every `]` from the start on has a line terminator before it |
| Parsing.CloseFromScansPlainText | script.js:279 | the characters before that `]` contain no `]` and no line terminator |
| Parsing.NextMatch | script.js:281 | one `exec` match opens at or after `lastIndex` and closes after it opens |
| Parsing.NextMatchFound | script.js:281 | an `exec` match opens where the pattern can match and closes at the first `]` after it |
| Parsing.NextMatchLeftmost | script.js:279-281 | an `exec` match is well formed and is the leftmost one at or after `lastIndex`; when there is none, the pattern matches nowhere from there on |
| Parsing.MatchSpansOrdered | script.js:277-285 | the matches of the `exec` loop come out left to right and do not overlap |
| Parsing.MatchSpansValid | script.js:277-285 | every match of the loop is a `[`, then text with no `]` and no line terminator, then a `]` |
| Parsing.LoopBlocksFromSpans | script.js:277-285 | the blocks are exactly the texts of the matches, one for one |
| Parsing.Exec | script.js:279-281 | the regex `exec` scan finds the leftmost match from `lastIndex`, or none |
| Parsing.FindLoopBlocks | script.js:277-285 | the `exec` loop returns exactly the blocks of all successive matches |
| Parsing.BlockOf | script.js:282 | `{ full: m[0], inside: m[1] }`; `BlockOfWellFormed` states its shape |
| Parsing.BlockOfWellFormed | script.js:282 | a block built from a match has `full == "[" + inside + "]"`, and `inside` has no `]` and no line terminator |
| Parsing.LoopBlocksShape | script.js:277-285 | every block `findLoopBlocks` returns is well formed in that sense |
| Parsing.LoopBlocksOrdered | script.js:277-285 | the returned blocks come from left-to-right, non-overlapping matches |
| Parsing.MatchSpansComplete | script.js:277-285 | every position where the pattern could match lies inside some reported match |
| Parsing.MatchSpans | script.js:277-285 | the successive `exec` matches; their properties are `MatchSpansOrdered`, `MatchSpansValid` and `MatchSpansComplete` |
| Parsing.LoopBlocks | script.js:277-285 | the blocks of those matches; their properties are `LoopBlocksFromSpans`, `LoopBlocksShape`, `LoopBlocksOrdered` and `LoopBlocksNeedBothBrackets`, and `FindLoopBlocks` computes them |
| Parsing.LoopBlocksNeedBothBrackets | script.js:277-285 | text lacking a `[` or a `]` yields no blocks, so an unmatched bracket produces nothing |
| Parsing.MatchHasBothBrackets | script.js:279-281 | a first match exists only if the text holds both a `[` and a `]` |
| Parsing.NestedBracketsCloseAtFirst | script.js:279 | `[a[b]c]` yields the single block `[a[b]` with inside `a[b` |
| Letters.PushRun | script.js:311-325 | the inner loop appends one entry per character of the run and advances the letter counter by the run's letter count |
| Letters.BuildLetterEntries | script.js:286-328 | the walk returns the entries of all runs in order |
| Letters.RunEntriesIndexed | script.js:311-325 | a run's entries are one per character, in order |
| Letters.LastRunIndexed | script.js:311-325 | the entry for a character of the last run carries the number of letters before it in the whole text |
| Letters.EntriesIndexed | script.js:286-328 | there is one entry per character of the whole text; each carries its character; a letter gets the count of letters before it, and anything else gets `null` |
| Letters.EntriesStyled | script.js:296-323 | the entry for character `o` of run `r` sits after all earlier runs' characters and carries that character and that run's style |
| Letters.Entries | script.js:286-328 | the entries of all runs; their properties are `EntriesIndexed`, `EntriesStyled` and `EntriesWellIndexed`, and `BuildLetterEntries` computes them |
| Letters.EntriesWellIndexed | script.js:313-323 | every letter entry has an index, and indices strictly increase along the entries |
| Tokenizer.SplitFromSlashes | script.js:339-341 | the split and filter yield one `/` piece per `/` of the snippet |
| Tokenizer.SplitFromLetters | script.js:339-341 | the words of the split hold all the snippet's letters |
| Tokenizer.SplitFromWords | script.js:339-341 | every word piece is non-empty and holds no whitespace and no `/` |
| Tokenizer.SplitFromFacts | script.js:339-341 | the three facts above, together |
| Tokenizer.SplitFromPlain | script.js:339-341 | text without whitespace or `/` only extends the word being read |
| Tokenizer.SplitFromSeparator | script.js:339-341 | at a whitespace character or `/`, the split is the split before it, a Slash for `/`, then the split after it begun afresh |
| Tokenizer.SplitRawPlain | script.js:339-341 | a non-empty word without whitespace or `/` splits into exactly itself |
| Tokenizer.SplitRawSeparator | script.js:339-341 | the split of `a + [c] + b` at a separator `c` is the split of `a`, a Slash when `c` is `/`, then the split of `b`; with `SplitRawPlain` this fixes the pieces and their order for every snippet, so `ab` is one word and `a b` two |
| Tokenizer.SplitFrom | script.js:339-341 | the split on whitespace and `/` with the filter; its properties are the `SplitFrom…` lemmas above |
| Tokenizer.SplitRaw | script.js:339-341 | `SplitFrom` from the start of the snippet; `SplitRawPlain` and `SplitRawSeparator` fix its result |
| Tokenizer.LettersOnly | script.js:349 | `replace(/[^a-zA-Z]/g, "")` keeps exactly the word's letters: as many as it has, each a letter, and one character is kept exactly when it is a letter |
| Tokenizer.LettersOnlyAppend | script.js:349 | letter filtering distributes over concatenation, so the word's letters stay in their order |
| Tokenizer.NextLetter | script.js:332-338 | `nextStyledLetter` returns the first letter entry at or after the cursor and moves the cursor just past it; with none left, the cursor runs to the end |
| Tokenizer.TakeLetters | script.js:370-378 | a chord takes at most as many entries as its word has letters, and the cursor never moves back |
| Tokenizer.TakeLettersComplete | script.js:370-378 | exactly `n` letters are taken unless no letter is left after them, and none are taken only when no letter is left at the cursor |
| Tokenizer.TakeOneMore | script.js:370-378 | with a letter left, taking `m` letters is that letter followed by `m - 1` more from just past it |
| Tokenizer.Sounded | script.js:358-362 | one token letter from an entry; `SoundedAgrees` states it keeps the entry's index and style, and its character or `?` |
| Tokenizer.SoundedAll | script.js:373-377 | one token letter per consumed entry |
| Tokenizer.WordToken | script.js:347-388 | a letterless word gives nothing and leaves the cursor. Otherwise a one-letter word gives a letter token and a longer word a chord, with 1 to `lettersOnly.length` letters, `BASE_DUR`, the `!` accent flag and the `?` random flag; under `?` every letter sounds as `?` |
| Tokenizer.WordTokenComplete | script.js:347-388 | a token holds all of its word's letters unless the letters ran out, and a word with letters yields no token only when no letter is left at the cursor |
| Tokenizer.SoundedAllAt | script.js:373-377 | each token letter comes from the entry at its position |
| Tokenizer.NextStyledLetter | script.js:332-338 | the closure's loop is `nextStyledLetter` as specified by `NextLetter` |
| Tokenizer.ChordLetters | script.js:369-378 | the chord loop collects exactly the letters `TakeLetters` consumes, sounded as the random flag says |
| Tokenizer.WordStep | script.js:347-388 | the loop body for one word does what `WordToken` specifies |
| Tokenizer.TokensFromTextAndLetters | script.js:329-391 | `tokensFromTextAndLetters` returns the tokens `Tokenize` describes, whose properties are the laws below |
| Tokenizer.TokenizeRaws | script.js:342-388 | the loop over the pieces with the cursor threaded through; its properties are the `TokenizeRaws…` laws below |
| Tokenizer.Tokenize | script.js:329-391 | `TokenizeRaws` over `SplitRaw`; its properties are the `Tokenize…` laws below, and `TokensFromTextAndLetters` computes it |
| TokenizerLaws.TokenizeRawsRests | script.js:342-388 | one rest token per `/` piece; every rest lasts `REST_DUR` and every other token `BASE_DUR` with at least one letter |
| TokenizerLaws.TokenizeRests | script.js:339-388 | the number of rest tokens equals the number of `/` characters in the snippet, and durations are as declared |
| TokenizerLaws.TokenizeRawsSilent | script.js:342-350 | pieces with no `/` and no letters yield no tokens |
| TokenizerLaws.TokenizeLetterless | script.js:339-350 | an empty or letterless snippet without `/` yields `[]` |
| TokenizerLaws.NextLetterStream | script.js:332-338 | `nextStyledLetter` hands out the head of the remaining letter stream and leaves its tail |
| TokenizerLaws.TakeLettersStream | script.js:370-378 | a chord's letters are a prefix of the letter stream, and the rest of the stream remains |
| TokenizerLaws.SoundedAgrees | script.js:373-377 | each token letter keeps its entry's index and style, and its character or `?` |
| TokenizerLaws.TokenizeRawsConsumes | script.js:342-388 | all token letters, in order, agree one for one with a prefix of the letter stream from the cursor |
| TokenizerLaws.TokenizeConsumesInOrder | script.js:329-391 | letter entries are consumed in order from `startAt`, none skipped and none reused |
| TokenizerLaws.LetterStreamAbove | script.js:333-335 | the stream from a cursor holds only indexed letters, with indices above any letter before the cursor |
| TokenizerLaws.LetterStreamIncreasing | script.js:333-335 | the letter stream's indices strictly increase |
| TokenizerLaws.TokenizeIndicesIncrease | script.js:329-391 | for entries built by `buildLetterEntries`, the letter indices across all emitted token letters strictly increase |
| Timeline.TotalDur | script.js:394-424 | the elapsed time `t - startTime`; `TotalDurPrefix` states it grows along the tokens, and `ScheduleTokens` returns it |
| Timeline.PitchOf | script.js:406-407 | random for a random token or a `?` letter, otherwise `letterToNote`; `PitchesOfLetters` and `EventPitches` state it per letter |
| Timeline.StyleOf | script.js:399 | the first letter's style, or `{}` without letters; `EventPitches` states the event records the first letter's style |
| Timeline.PitchesOf | script.js:412-414 | one pitch per chord letter |
| Timeline.PitchesOfLetters | script.js:412-414 | each pitch is random if the token is random or the letter is `?`, and otherwise the letter's `letterToNote` |
| Timeline.EventPitches | script.js:399-421 | a letter token triggers one pitch and a chord one per letter; the event records the first letter's style, so the tone its style selects is that colour's; every named pitch is in the pool; a random token sounds only random pitches |
| Timeline.EventOf | script.js:399-421 | one sounding token's trigger; its properties are `EventPitches` and the `Schedule…` lemmas |
| Timeline.Schedule | script.js:392-425 | the events of a token list from a start time; its properties are `ScheduleLength`, `SchedulePrefix`, `ScheduleSnoc`, `ScheduleAt` and `ScheduleTimes`, and `ScheduleTokens` computes it |
| Timeline.ScheduleTokens | script.js:392-425 | the accumulator loop returns the sum of the token durations and logs exactly the scheduled events |
| Timeline.ScheduleLength | script.js:392-425 | one event per sounding token; rests trigger nothing |
| Timeline.SchedulePrefix | script.js:392-425 | scheduling a prefix of the tokens gives a prefix of the events |
| Timeline.ScheduleSnoc | script.js:394-423 | one more token adds its event, at the start plus all earlier durations, or nothing for a rest |
| Timeline.ScheduleSounding | script.js:404-422 | a sounding token's event follows those of the tokens before it |
| Timeline.ScheduleAt | script.js:392-425 | each sounding token triggers once, at `startTime` plus the durations of all earlier tokens |
| Timeline.TotalDurPrefix | script.js:396-421 | elapsed time never decreases along the tokens, and a sounding token adds `BASE_DUR` |
| Timeline.ScheduleTimes | script.js:392-425 | every trigger lasts `BASE_DUR` and falls inside `[start, start + total)`, and trigger times are at least `BASE_DUR` apart |
| Timeline.AppendSpaced | script.js:410-421 | a trigger after all earlier ones keeps the events spaced |
| Loops.Trimmed | script.js:466 | `innerText.trim()`; `TrimSpan` states what it keeps |
| Loops.IsActive | script.js:479 | `trimmed.endsWith(".")`; `IsActiveLastDot` states its meaning |
| Loops.IsActiveLastDot | script.js:466-479 | a paragraph is active exactly when its last non-whitespace character is `.` |
| Loops.OneShotTokens | script.js:448-451 | the tokens of `playParagraphOnce`; `OneShotTokensFacts` states them |
| Loops.OneShotTokensFacts | script.js:448-451 | the one-shot tokens sound the paragraph's letters in order from its first, quoted letters included, with one rest per `/` left after stripping quotes, and declared durations |
| Loops.LoopTokens | script.js:507-509 | the tokens of one block; `LoopTokensFacts` states them |
| Loops.LoopTokensFacts | script.js:507-509 | a block's tokens sound the paragraph's letters in order from its first, not the letters inside the brackets, with one rest per `/` of the stripped inside, and declared durations |
| Loops.LoopDur | script.js:512-516 | `loopDur`; `TokensPlayable` states the fallback never applies to a block with tokens, and `Playback.LoopLength` computes it |
| Loops.PeriodMs | script.js:522 | the `setInterval` delay in exact arithmetic; `FireReplays` states a firing's triggers fit within one period |
| Loops.NewTimer | script.js:518-522 | the timer a block starts; `StartOneEntries` states it replays that block's tokens |
| Loops.TokensPlayable | script.js:510-516 | non-empty tokens have a positive total, so the loop length is that total and the `|| 0.2` fallback never applies |
| Loops.PlayOnceEvents | script.js:447-455 | the events of `playParagraphOnce`; `PlayOnceTimes` states them |
| Loops.PlayOnceTimes | script.js:447-455 | a paragraph without tokens plays nothing; otherwise its stripped tokens are scheduled from `now`, as spaced triggers inside `[now, now + total)` |
| Loops.Prune | script.js:497-501 | the `filter` keeps the paragraph's entry and the table's keys |
| Loops.AddLoop | script.js:518-524 | pushing a loop keeps the table's keys |
| Loops.StartOne | script.js:504-525 | starting one block keeps the table's keys |
| Loops.StartAll | script.js:504-525 | starting the blocks keeps the table's keys |
| Loops.Begin | script.js:487-491 | after the first-time step the paragraph has an entry |
| Loops.EmptyInv | script.js:428 | the empty table satisfies the no-leak invariant |
| Loops.LiveIsStored | script.js:428 | under the invariant, the live timers are exactly the handles stored in the table |
| Loops.DroppedAppend | script.js:497-501 | the filter over one more entry keeps it or clears its handle, as its text is still a block or not |
| Loops.DistinctUnique | script.js:505 | in a list with distinct texts and handles, an entry is fixed by its text or its handle |
| Loops.DistinctAt | script.js:505 | no two positions of such a list share a text or a handle |
| Loops.KeptFacts | script.js:497-501 | the filter keeps exactly the entries whose text is still a block, and keeps texts distinct |
| Loops.OwnTimers | script.js:481 | a handle stored under a paragraph belongs to a timer of that paragraph |
| Loops.Deactivate | script.js:479-485 | clears the paragraph's intervals and deletes its entry; `DeactivateInv` states what that keeps |
| Loops.Activate | script.js:487-491 | adds `[]` for the paragraph and plays it once; `ActivateInv` and `BeginInv` state what that keeps and logs |
| Loops.DeactivateInv | script.js:479-485 | clearing and deleting a paragraph's entry keeps the invariant; none of its timers stays live and other timers are untouched |
| Loops.ActivateInv | script.js:488-491 | adding `[]` for a new paragraph keeps the invariant |
| Loops.BeginInv | script.js:487-491 | the first-time step keeps the invariant, touches only this paragraph, starts no timer and logs the one-shot playback exactly when the entry was missing |
| Loops.PruneDropsOwn | script.js:497-501 | each handle the filter clears is a live timer of this paragraph that is no longer stored |
| Loops.PruneInv | script.js:497-501 | the filter keeps the invariant, keeps exactly the entries whose text is still a block, and leaves every other timer alone |
| Loops.ExtendsTrans | script.js:504-525 | growing a paragraph's entry list step by step composes |
| Loops.NextIsFresh | script.js:518 | the next handle is neither live nor stored |
| Loops.AddLoopInv | script.js:518-524 | registering a fresh timer and pushing its entry keeps the invariant and only extends the paragraph's list |
| Loops.StartOneInv | script.js:504-525 | starting one block keeps the invariant and only extends the list |
| Loops.StartOneEntries | script.js:504-525 | a new entry is the block's, with a timer replaying that block's tokens; a block with tokens ends up running; running texts stay running |
| Loops.StartAllInv | script.js:504-525 | starting all blocks keeps the invariant |
| Loops.StartAllEntries | script.js:504-525 | every entry was there before or belongs to a block, with that block's timer; every block with non-empty tokens ends up with an entry |
| Loops.Tick | script.js:465-526 | one paragraph's step; its properties are `TickInv`, `TickInactive`, `TickActive`, `TickLog` and `TickOthers`, and `Player.TickParagraph` computes it |
| Loops.Update | script.js:462-527 | the steps over all paragraphs; `UpdateInv` and `UpdateReconciles` state its result, and `Player.UpdateParagraphs` computes it |
| Loops.Stop | script.js:437-445 | `stopAll`; `StopInv`, `StopEmpties` and `StopIdempotent` state its result |
| Loops.Fire | script.js:518-522 | one interval firing; `FireInv` and `FireReplays` state its result |
| Loops.TickInv | script.js:465-526 | one paragraph's tick keeps the no-leak invariant |
| Loops.UpdateInv | script.js:462-527 | `updateParagraphs` keeps the no-leak invariant: live timers are exactly the stored handles |
| Loops.StopInv | script.js:437-445 | `stopAll` keeps the invariant and leaves no entry and no live timer |
| Loops.FireInv | script.js:518-522 | an interval firing keeps the invariant |
| Loops.TickInactive | script.js:479-485 | a paragraph not ending in `.` leaves the tick with no entry and none of its intervals live, and plays nothing |
| Loops.TickActive | script.js:487-525 | an active paragraph has an entry afterwards. Every entry's text is the `full` of a current block, texts are distinct, and every block with tokens has an entry. Surviving loops keep their timers, vanished ones are cleared, and new ones replay their block's tokens |
| Loops.TickLog | script.js:487-491 | a tick plays the paragraph once exactly when it ends in `.` and had no entry, and otherwise logs nothing |
| Loops.SameElsewhereTrans | script.js:465-526 | "changes nothing outside this paragraph" composes |
| Loops.InvOnlyAt | script.js:465-526 | between two tables satisfying the invariant that agree elsewhere, new timers all serve this paragraph |
| Loops.ActiveOnlyAt | script.js:487-525 | an active paragraph's tick changes only that paragraph's entry and timers |
| Loops.TickOthers | script.js:465-526 | any tick leaves other paragraphs' entries and timers unchanged |
| Loops.UpdateReconciles | script.js:462-527 | after `updateParagraphs`, paragraph `j` has an entry exactly when it ends in `.`, and its entry is reconciled with its blocks. Indices beyond the paragraph count, with their timers, are left exactly as they were |
| Loops.StopEmpties | script.js:437-445 | `stopAll` empties the table, clears every interval and releases all notes |
| Loops.StopIdempotent | script.js:437-445 | a second `stopAll` leaves the table, the timers and the handle counter as the first left them |
| Loops.StopThenTickReplays | script.js:437-491 | after `stopAll`, an active paragraph plays once again on the next tick |
| Loops.FireReplays | script.js:518-522 | a live interval replays its cached tokens from `now`, without re-tokenizing; their triggers fit within one period and are spaced; a cleared handle does nothing |
| Playback.SomeFull | script.js:498 | `loops.some(lb => lb.full === text)` is membership of the text among the blocks' `full` texts |
| Playback.SomeText | script.js:505 | `activeLoops[idx].some(l => l.text === text)` is membership among the running texts |
| Playback.LoopLength | script.js:512-516 | the `reduce` is the tokens' total duration, or the fallback when that is 0 |
| Playback.Player.constructor | script.js:428 | the table starts empty and satisfies the invariant |
| Playback.Player.SetInterval | script.js:518-522 | registers a timer under the next handle and returns that handle |
| Playback.Player.ClearInterval | script.js:499 | the handle is no longer live; nothing else changes |
| Playback.Player.ClearEach | script.js:481 | clears every handle of a list |
| Playback.Player.PlayParagraphOnce | script.js:447-455 | logs the one-shot playback of the stripped paragraph, or nothing when it has no tokens |
| Playback.Player.StopAll | script.js:437-445 | in place, reaches `Stop` of the old table and keeps the invariant |
| Playback.Player.Fire | script.js:518-522 | in place, reaches `Fire` of the old table and keeps the invariant |
| Playback.Player.KeepOrClear | script.js:497-501 | the filter callback keeps an entry whose text is still a block and otherwise clears its interval |
| Playback.Player.PruneLoops | script.js:497-501 | the in-place filter reaches `Prune` of the old table |
| Playback.Player.StartLoop | script.js:505-524 | one `forEach` step reaches `StartOne` of the old table |
| Playback.Player.StartLoops | script.js:504-525 | the `forEach` reaches `StartAll` of the old table |
| Playback.Player.TickParagraph | script.js:465-526 | one paragraph's body reaches `Tick` of the old table and keeps the invariant |
| Playback.Player.UpdateParagraphs | script.js:462-527 | `updateParagraphs` reaches `Update` of the old table and keeps the invariant |
| Live.IsInsideParens | script.js:581-585 | the `lastIndexOf` comparison; `IsInsideParensMeansOpenParen` states what it means |
| Live.IsLiveKey | script.js:538 | a single letter, `?` or `/`; `Decide` states its role |
| Live.IsInsideParensMeansOpenParen | script.js:581-585 | the caret is inside parentheses exactly when some `(` before it has no `)` after it |
| Live.Decide | script.js:536-570 | a key acts only when it is a single letter, `?` or `/`, a selection exists and the caret is inside parentheses. Then the caret's whole style is applied, and `/` is silence, `?` a random note and a letter its `letterToNote`, always in the pool; both actions carry that style |
| Live.DecideIgnoresCase | script.js:538-569 | an upper-case key acts exactly as its lower case |
| Live.LiveNeedsOpenParen | script.js:542-544 | nothing sounds or stops unless some `(` before the caret is still open |

## Left out

- The Tone.js audio chain is not modelled: the synth, distortion, vibrato, reverb and limiter. `applyStyleToSound` is kept only as the style recorded in each event, with `ToneOf` deriving the oscillator and drive that style selects. The library is foreign code.
- `applyStyleToSound` sets global synth state at scheduling time, for every token before any of them sounds. A note can therefore sound with a later token's style, or with a style set by the keydown handler or another loop. The log records the style applied for each trigger, not the style heard.
- `toPx`, `fontSizeToVelocity` and the accent bump of the velocity are not modelled; an event carries no velocity. They use floating point and `parseFloat`.
- `randomNote` is the pitch `Random`, with no particular element of the pool chosen, because `Math.random` is outside the model.
- `getComputedStyle` and the DOM tree walk are left out. A paragraph is its `innerText` plus a sequence of text runs, each with the style its parent element resolves to; the caret is its text before the caret and its style. The style object is passed along as given.
- Each letter entry's `node` and `offset` and each loop entry's `el` are left out. They serve only highlighting and the loop pulse.
- Highlighting, `Tone.Draw`, `pulseLoop`, the toolbar, formatting commands, the font-size display, audio unlock, toasts, nudges and the onboarding coach are left out, including the coach flag updates inside `updateParagraphs`. They are DOM and UI only.
- `getParagraphElements` is left out; the paragraphs are an input sequence.
- Wall-clock time, the real periodicity of `setInterval`, `Tone.now()` and `Tone.Transport` are left out. Time is a `now` parameter, an interval is a handle whose firing is an explicit call, and `Tone.Transport.stop()` and `clearTempHighlights` in `stopAll` are not modelled.
- `JsText.LowerAscii`: `toLowerCase` is modelled for ASCII only. The engine lower-cases characters that have passed `[a-zA-Z]`, and colour strings whose keywords are ASCII, so other characters keep their case in the model.
- `Timeline.EventOf`: a letter token with no letters would make the code throw at `l.ch`. The tokenizer never produces one (`TokenizerLaws.TokenizeRests`), so the model gives such a token no pitch instead of an error.
- `Loops.PeriodMs`: the code adds durations as IEEE doubles, and `setInterval` truncates its delay to whole milliseconds. Neither is modelled, so the real period can be 1 ms shorter than `PeriodMs`: eight letter tokens sum to 2.7199999999999998 s, and the delay becomes 2719 ms, not 2720. For the same reason the times `scheduleTokens` accumulates in `t` can drift from the exact centisecond times of `Timeline.Schedule` by rounding error.
- `stopAll` is declared twice in `script.js` (lines 437-445 and 600-608) with identical bodies. The model has one `Stop`.
