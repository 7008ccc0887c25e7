# Word typing game: a verified model of the session rules

The game shows a word drawn at random from a fixed list of 31 lower-case
words. A round starts paused with 30 seconds on the clock. The player starts
it, types the word and submits it. A correct submission scores a point,
extends the combo, adds two seconds (capped at 30) and draws a new word. A
wrong one resets the combo. When the clock reaches zero the round is over
and the summary screen shows a medal for the score. The model raises the
high score to the score when it was beaten; the source as written usually
does not, because its timer reads a stale score (see Findings).

The model has three modules:

- `Text` (`text.dfy`): the two string operations the submission test uses.
  These are JavaScript's `trim`, over the full ECMAScript white-space and
  line-terminator set, and `toLowerCase`, restricted to ASCII letters.
- `GameOver` (`game_over.dfy`): the medal tier of a final score and the
  new-record test of the summary screen.
- `WordTypingGame` (`word_typing_game.dfy`): the word list, the per-letter
  colouring, the combo colour and the nine-field session.
  - Each transition is a pure function on a `GameState` value
    (`AfterTick`, `AfterKeyPress`, `AfterSubmit`, `AfterRestart`,
    `AfterStartPause`, `AfterGenerateWord`). The properties are proved about
    these functions and about runs of events (`Run`).
  - `Session` is a class with the nine fields. Each of its methods updates
    them in place and is proved to move `State()` exactly as the matching
    function does, keeping `Valid()`.

The random draw of `generateWord` is an index `i < |Words|` that the caller
supplies. The high score read from storage at start-up is a `nat` parameter
of the constructor.

## Model

| member | source | states |
|---|---|---|
| Text.IsSpace | src/components/WordTypingGame.tsx:62 | the characters `trim` removes, ECMAScript's WhiteSpace and LineTerminator set; none of them is an ASCII letter |
| Text.LowerChar | src/components/WordTypingGame.tsx:62 | ASCII lower-casing of one character: the result is never upper-case; `A`-`Z` move up by 32; every other character is kept |
| Text.Lower | src/components/WordTypingGame.tsx:62 | ASCII lower-casing keeps the length of the string |
| Text.LowerAt | src/components/WordTypingGame.tsx:62 | each character of the lower-cased string is its own character lower-cased; upper-case ASCII moves by 32 and everything else is kept |
| Text.LowerOfLowerCase | src/components/WordTypingGame.tsx:62 | a string with no upper-case letter is unchanged by lower-casing |
| Text.TrimStart | src/components/WordTypingGame.tsx:62 | removing leading spaces never lengthens the string (its shape is `TrimStartShape`) |
| Text.TrimEnd | src/components/WordTypingGame.tsx:62 | removing trailing spaces never lengthens the string (its shape is `TrimEndShape`) |
| Text.Trim | src/components/WordTypingGame.tsx:62 | `trim` leaves no removable space at either end and never lengthens the string |
| Text.TrimStartShape | src/components/WordTypingGame.tsx:62 | removing leading spaces leaves a suffix; all of the removed part is space; the rest does not start with a space |
| Text.TrimEndShape | src/components/WordTypingGame.tsx:62 | removing trailing spaces leaves a prefix; all of the removed part is space; the rest does not end with a space |
| Text.TrimPadded | src/components/WordTypingGame.tsx:62 | trimming any spaces off both sides of a trimmed string gives that string back |
| Text.TrimSplits | src/components/WordTypingGame.tsx:62 | every string is its trimmed core with spaces on either side |
| GameOver.GetMedal | src/components/GameOver.tsx:16-22 | Platinum iff score >= 50, Gold iff 30..49, Silver iff 20..29, Bronze iff 10..19, Participant iff < 10 |
| GameOver.MedalMonotone | src/components/GameOver.tsx:16-22 | a higher score never earns a lower medal |
| GameOver.IsNewRecord | src/components/GameOver.tsx:14 | a record needs at least one point more than the high score, so a record score is positive |
| GameOver.NewRecordIsStrict | src/components/GameOver.tsx:14 | equalling the high score is not a record; one more point is; any record is at least one more point |
| WordTypingGame.WordsAreLowerWords | src/components/WordTypingGame.tsx:6-10 | every entry of the word list is a non-empty word of letters a-z |
| WordTypingGame.ListedWordIsLowerWord | src/components/WordTypingGame.tsx:6-10 | any word in the list is a non-empty lower-case word |
| WordTypingGame.Matches | src/components/WordTypingGame.tsx:62 | the submission test; a matching input trims to exactly the target's length |
| WordTypingGame.LowerWordIsTrimmedLowerCase | src/components/WordTypingGame.tsx:62 | a listed word is its own trimmed and lower-cased form |
| WordTypingGame.WordMatchesItself | src/components/WordTypingGame.tsx:62 | typing the target exactly is a match |
| WordTypingGame.PaddedSpellingMatches | src/components/WordTypingGame.tsx:62 | the target in any letter case, with any spaces around it, is a match |
| WordTypingGame.MatchingInputIsPaddedSpelling | src/components/WordTypingGame.tsx:62 | conversely, a matching input is the target in some case, with only spaces around it |
| WordTypingGame.PaddedTargetNeverMatches | src/components/WordTypingGame.tsx:62 | the target is not trimmed: a target starting with a space matches no input |
| WordTypingGame.PrefixMismatchExample | src/components/WordTypingGame.tsx:62 | "appl" does not match "apple" |
| WordTypingGame.Letters | src/components/WordTypingGame.tsx:168-177 | one state per letter of the word; Pending iff the letter is not yet typed; a typed letter is Correct iff it equals the target letter ignoring case |
| WordTypingGame.ExtraInputIgnored | src/components/WordTypingGame.tsx:173-176 | characters typed past the end of the word change no letter's state |
| WordTypingGame.AllCorrectIff | src/components/WordTypingGame.tsx:168-177 | every letter shows Correct iff the input's first \|word\| characters spell the word ignoring case |
| WordTypingGame.AllCorrectSubmits | src/components/WordTypingGame.tsx:62 | an input of the word's length with every letter Correct is accepted on submit |
| WordTypingGame.ComboColorOf | src/components/WordTypingGame.tsx:96-101 | red iff combo >= 10, orange iff 7..9, gold iff 4..6, white iff < 4 |
| WordTypingGame.ComboColorMonotone | src/components/WordTypingGame.tsx:96-101 | a longer combo never shows a cooler colour |
| WordTypingGame.Initial | src/components/WordTypingGame.tsx:13-21 | the first render satisfies the invariant, is not running and holds the stored high score |
| WordTypingGame.AfterGenerateWord | src/components/WordTypingGame.tsx:50-53 | only the target changes, to the listed word at the drawn index; the invariant is kept |
| WordTypingGame.Mounted | src/components/WordTypingGame.tsx:24-27 | after the mount effect the target is the drawn word, with score 0 and the stored high score |
| WordTypingGame.AfterTick | src/components/WordTypingGame.tsx:33-45 | score, combo, best combo, target and input are unchanged; the high score is raised to the score only on the last second of a running round; the invariant is kept |
| WordTypingGame.AfterKeyPress | src/components/WordTypingGame.tsx:55-58 | only the input changes, and only while the round runs; the invariant is kept |
| WordTypingGame.AfterSubmit | src/components/WordTypingGame.tsx:60-77 | the high score, game-over and running flags are kept; score and best combo never drop; the target stays or becomes the drawn word; the invariant is kept |
| WordTypingGame.AfterRestart | src/components/WordTypingGame.tsx:79-88 | a paused round satisfying the invariant on the drawn word, with the high score and best combo kept |
| WordTypingGame.AfterStartPause | src/components/WordTypingGame.tsx:90-94 | only the running flag changes, and it flips iff the round is not over; the invariant is kept |
| WordTypingGame.TickEndsRound | src/components/WordTypingGame.tsx:34-42 | the last-second tick stops the clock at 0, ends and stops the round and sets the high score to max(high score, score); nothing else changes |
| WordTypingGame.TickCountsDown | src/components/WordTypingGame.tsx:44 | any other tick of a running round only decrements the clock |
| WordTypingGame.TickRecordIff | src/components/WordTypingGame.tsx:38-41 | the round-ending tick raises the high score iff the score is a new record over the high score from before; the summary, given the raised value, never shows a record |
| WordTypingGame.InactiveIgnoresInput | src/components/WordTypingGame.tsx:56 | outside a running round, input change, submit and tick leave the state as it is |
| WordTypingGame.SubmitMatch | src/components/WordTypingGame.tsx:62-72 | a match adds 1 to score and combo, sets the best combo to max(best, combo + 1), the clock to min(clock + 2, 30), clears the input and moves to the drawn word; the rest is kept |
| WordTypingGame.SubmitMismatch | src/components/WordTypingGame.tsx:74-76 | a mismatch only resets the combo to 0 |
| WordTypingGame.RestartResets | src/components/WordTypingGame.tsx:79-88 | restart gives the drawn word, empty input, 30 seconds, not over, score 0, combo 0, paused; high score and best combo are kept |
| WordTypingGame.RestartIdempotent | src/components/WordTypingGame.tsx:79-88 | restarting twice on the same word is restarting once |
| WordTypingGame.PauseResume | src/components/WordTypingGame.tsx:90-94 | pausing and resuming gives back the state; a paused round does not tick |
| WordTypingGame.StepKeepsWordListed | src/components/WordTypingGame.tsx:50-53 | no event moves the target off the word list |
| WordTypingGame.RunKeepsInvariant | src/components/WordTypingGame.tsx:15-20 | any run of events keeps 0 <= timeLeft <= 30, gameOver iff timeLeft = 0, gameOver implies not running, combo <= best combo; it never lowers the high score or best combo and keeps a listed target listed |
| WordTypingGame.PeakIsMaxCombo | src/components/WordTypingGame.tsx:65-69 | after any run the best combo is max(best combo before, highest combo reached in the run) |
| WordTypingGame.MaxComboIsPeak | src/components/WordTypingGame.tsx:65-69 | from the first render the best combo equals the highest combo the session has reached |
| WordTypingGame.Reachable | src/components/WordTypingGame.tsx:13-27 | every state reached from the first render satisfies the invariant; after the mount effect the target is always listed and the high score never falls below the stored one |
| WordTypingGame.RunAppend | src/components/WordTypingGame.tsx:29-49 | running two event sequences one after the other is running their concatenation |
| WordTypingGame.RunTicks | src/components/WordTypingGame.tsx:44 | n ticks with more than n seconds left only take n seconds off the clock |
| WordTypingGame.RunOutTheClock | src/components/WordTypingGame.tsx:33-45 | left running, the round ends after exactly timeLeft ticks, with the high score raised to the score if beaten |
| WordTypingGame.ClockRecordsScore | src/components/WordTypingGame.tsx:38-41 | when the clock runs out the high score is max(high score, score) |
| WordTypingGame.TypeAndSubmitScores | src/components/WordTypingGame.tsx:55-72 | typing the target and submitting scores 1, extends the combo by 1, sets the best combo to max(best, combo + 1), the clock to min(clock + 2, 30), clears the input and moves to the drawn word `Words[next]`; the round keeps running with the invariant and the high score kept |
| WordTypingGame.StreakScores | src/components/WordTypingGame.tsx:60-72 | n correct words in a row add n to the score and the combo, with the best combo at least the combo |
| WordTypingGame.FreshStart | src/components/WordTypingGame.tsx:90-94 | starting right after mount gives a running round at 30 seconds with zero counters |
| WordTypingGame.TenCorrectWords | src/components/GameOver.tsx:14-22 | ten correct words from zero give score, combo and best combo 10, the Bronze medal, and a record over the high score of 0 |
| WordTypingGame.TenCorrectWordsThenTimeUp | src/components/WordTypingGame.tsx:33-45 | after those ten words, once the clock runs out, the high score is 10 |
| WordTypingGame.TickAsWritten | src/components/WordTypingGame.tsx:32-49 | the tick as written: its new high score is the old one or the score captured when the interval was set up |
| WordTypingGame.FirstWordSubmitted | src/components/WordTypingGame.tsx:55-72 | start, type the first word and submit from a fresh session: score 1, combo 1, 30 seconds, on the drawn word |
| WordTypingGame.TickAsWrittenLosesRecord | src/components/WordTypingGame.tsx:38-41 | with the interval set up at score 0, the last tick as written leaves the high score at 0 after a round scoring 1; the corrected tick records 1 |
| WordTypingGame.MountedWithWord | src/components/WordTypingGame.tsx:24-27 | the mounted state is the first render with the drawn word, which is a lower-case word |
| WordTypingGame.Session.constructor | src/components/WordTypingGame.tsx:13-21 | the nine fields start as the first render, from the stored high score |
| WordTypingGame.Session.GenerateWord | src/components/WordTypingGame.tsx:50-53 | the target becomes the drawn word; the invariant is kept |
| WordTypingGame.Session.Tick | src/components/WordTypingGame.tsx:33-45 | the fields move as `AfterTick`; the invariant is kept |
| WordTypingGame.Session.HandleKeyPress | src/components/WordTypingGame.tsx:55-58 | the fields move as `AfterKeyPress`; the invariant is kept |
| WordTypingGame.Session.HandleSubmit | src/components/WordTypingGame.tsx:60-77 | the fields move as `AfterSubmit`; the invariant is kept |
| WordTypingGame.Session.HandleRestart | src/components/WordTypingGame.tsx:79-88 | the fields move as `AfterRestart`; the invariant is kept |
| WordTypingGame.Session.HandleStartPause | src/components/WordTypingGame.tsx:90-94 | the fields move as `AfterStartPause`; the invariant is kept |

## Left out

- Rendering is not modelled: JSX, animation props, styles, the share buttons and the time-bonus indicator.
- Focus calls (`inputRef.current?.focus()`) are DOM side effects and are left out.
- Timers are not modelled. `setInterval`, `clearInterval` and the confetti `setTimeout` are replaced by explicit `Tick` calls. A tick outside a running round is a no-op, because no interval exists then. The confetti window and the `Confetti` component are left out.
- `localStorage` is not modelled. The high score read at start-up, including the `Number(...) || 0` parsing of the stored text, is the constructor's `nat` argument. The write on a new record is not modelled.
- `Math.random` is replaced by an index into the list that the caller supplies.
- Text.LowerChar: lower-cases only ASCII `A`-`Z`. Full Unicode `toLowerCase` also maps other characters, such as the Kelvin sign to `k`, and can change the length (`"İ"` becomes two code units). So an input using them can match a listed word in the source but not in the model, and it can colour letters differently.
- WordTypingGame.Letters: indexes the input by Unicode code point. The source's `userInput.length` and `userInput[index]` count UTF-16 code units, so a character outside the Basic Multilingual Plane, such as an emoji, takes two positions there and one in the model. For example, the input "🍎p" against "apple" colours Wrong, Wrong, Correct, Pending, Pending in the source, but Wrong, Correct, Pending, Pending, Pending in the model.
- React batching, and StrictMode's double call of state updaters, are not modelled. Each handler is one atomic transition on the current field values.
- WordTypingGame.AfterSubmit: uses the current best combo. The source's `setCombo` updater compares with `maxCombo` from the render closure, which can be out of date when two submissions are batched in one render.
- WordTypingGame.AfterTick: is the corrected tick, using the current score and high score. The tick as written is `TickAsWritten`; see Findings.
- The summary's `isNewRecord` is modelled as the plain function of its two inputs. The evident intent is to judge a record against the high score from before the round. The code instead passes the raised high score to the summary, so after the corrected tick the summary never shows a record (`TickRecordIff`). `TenCorrectWords` states the record against the high score from before the round.
- WordTypingGame.Session.HandleSubmit: draws the next word by assigning `Words[next]` directly. It does not call `GenerateWord`, which makes the same assignment.
- `src/components/Timer.tsx` is display only (its `timeLeft <= 5` threshold is styling). `src/main.tsx` is application bootstrap. Neither is part of this model.

## Findings

| source | as written | input that shows it | evidently intended | confidence | as-written member | corrected member |
|---|---|---|---|---|---|---|
| src/components/WordTypingGame.tsx:38-41, :49 | the interval body compares and stores `score` and `highScore` as they were when the effect ran; the effect's dependencies are only `isRunning` and `gameOver` | a fresh session with stored high score 0: start, type and submit the first word (score 1), then let the clock run out without pausing; the last tick sees score 0, so the high score stays 0 | the round-ending tick raises the high score to the current score when it is beaten | not executed | WordTypingGame.TickAsWrittenLosesRecord | WordTypingGame.TickEndsRound |
