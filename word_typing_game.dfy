/** The typing-game session: the word list, the nine pieces of session state,
    the five transitions (tick, input change, submit, restart, start/pause),
    the per-letter colouring of the target word and the combo colour.

    The transitions are given twice: as pure functions on a `GameState` value
    (`AfterTick`, `AfterSubmit`, ...), about which the properties are proved,
    and as the methods of `Session`, a class whose fields the methods update
    in place and whose every method is proved to move its state exactly as
    the matching function does. */
module WordTypingGame {
  import opened Text
  import opened GameOver

  /** `words`: the list every target word is drawn from. */
  const Words: seq<string> := [
    "apple", "banana", "cherry", "dragonfruit", "elderberry", "fig", "guava", "honeydew", "kiwi", "lemon",
    "mango", "nectarine", "orange", "papaya", "quince", "raspberry", "strawberry", "ugli", "vanilla", "watermelon", "yellowfruit",
    "dalerjon", "muslima", "firdavs", "bexruz", "shohjahon", "mahmud", "nizom", "jahon", "jonibek", "hasan"
  ]

  /** What `Math.floor(Math.random() * words.length)` can produce. */
  type WordIndex = i: nat | i < |Words| witness 0

  /** Seconds on the clock at the start of a round, also the cap of the bonus. */
  const RoundTime: int := 30

  /** Seconds added by a correct submission. */
  const TimeBonus: int := 2

  function Max(a: nat, b: nat): nat {
    if a >= b then a else b
  }

  function Min(a: int, b: int): int {
    if a <= b then a else b
  }

  // ---------------------------------------------------------------------------
  // Words and the comparison of a submission with the target
  // ---------------------------------------------------------------------------

  /** A non-empty word of lower-case ASCII letters. */
  predicate IsLowerWord(w: string) {
    |w| > 0 && forall k :: 0 <= k < |w| ==> 'a' <= w[k] <= 'z'
  }

  /** The list checked entry by entry, in four slices of indices. */
  lemma FirstWordsAreLowerWords()
    ensures forall i :: 0 <= i < 8 ==> IsLowerWord(Words[i])
  {
  }

  lemma SecondWordsAreLowerWords()
    ensures forall i :: 8 <= i < 16 ==> IsLowerWord(Words[i])
  {
  }

  lemma ThirdWordsAreLowerWords()
    ensures forall i :: 16 <= i < 24 ==> IsLowerWord(Words[i])
  {
  }

  lemma LastWordsAreLowerWords()
    ensures forall i :: 24 <= i < |Words| ==> IsLowerWord(Words[i])
  {
  }

  /** Every entry of the list is a non-empty lower-case ASCII word. */
  lemma WordsAreLowerWords()
    ensures forall i :: 0 <= i < |Words| ==> IsLowerWord(Words[i])
  {
    FirstWordsAreLowerWords();
    SecondWordsAreLowerWords();
    ThirdWordsAreLowerWords();
    LastWordsAreLowerWords();
  }

  lemma WordAtIsLowerWord(i: WordIndex)
    ensures IsLowerWord(Words[i])
  {
    WordsAreLowerWords();
  }

  /** Every word a session can show is a lower-case ASCII word. */
  lemma ListedWordIsLowerWord(w: string)
    requires w in Words
    ensures IsLowerWord(w)
  {
    var i :| 0 <= i < |Words| && Words[i] == w;
    WordsAreLowerWords();
  }

  /** The test of `handleSubmit`: the input, trimmed and lower-cased, equals
      the lower-cased target; the target itself is not trimmed. */
  function Matches(input: string, word: string): (b: bool)
    ensures b ==> |Trim(input)| == |word| <= |input|
  {
    Lower(Trim(input)) == Lower(word)
  }

  lemma LowerWordIsLowerCase(w: string)
    requires IsLowerWord(w)
    ensures Lower(w) == w
  {
    LowerOfLowerCase(w);
  }

  lemma LowerWordIsTrimmed(w: string)
    requires IsLowerWord(w)
    ensures Trimmed(w) && Trim(w) == w
  {
    assert 'a' <= w[0] <= 'z' && 'a' <= w[|w| - 1] <= 'z';
    assert !IsSpace(w[0]) && !IsSpace(w[|w| - 1]);
    TrimStartPadded([], w);
    assert [] + w == w;
    TrimEndPadded(w, []);
    assert w + [] == w;
  }

  lemma LowerWordIsTrimmedLowerCase(w: string)
    requires IsLowerWord(w)
    ensures Trimmed(w) && Lower(w) == w && Trim(w) == w
  {
    LowerWordIsLowerCase(w);
    LowerWordIsTrimmed(w);
  }

  /** Typing a lower-case word exactly matches it. */
  lemma WordMatchesItself(w: string)
    requires IsLowerWord(w)
    ensures Matches(w, w)
  {
    LowerWordIsTrimmedLowerCase(w);
  }

  /** Any spelling of the word that differs only in case, surrounded by any
      spaces, matches it. The target is taken lower-case, as every listed
      word is, so the lower-casing of the target plays no part here. */
  lemma {:induction false} PaddedSpellingMatches(p: string, x: string, q: string, w: string)
    requires IsLowerWord(w)
    requires AllSpace(p) && AllSpace(q) && Lower(x) == w
    ensures Matches(p + x + q, w)
  {
    LowerWordIsLowerCase(w);
    LowerAt(x);
    assert w[0] == LowerChar(x[0]) && w[|x| - 1] == LowerChar(x[|x| - 1]);
    assert 'a' <= w[0] <= 'z' && 'a' <= w[|x| - 1] <= 'z';
    assert !IsSpace(x[0]) && !IsSpace(x[|x| - 1]);
    TrimPadded(p, x, q);
  }

  /** Conversely, a matching input is the word, in some case, surrounded by
      spaces; `i` is where the word starts in the input. As above, the
      target is a lower-case word. */
  lemma MatchingInputIsPaddedSpelling(input: string, w: string) returns (i: nat)
    requires IsLowerWord(w)
    requires Matches(input, w)
    ensures i + |w| <= |input|
    ensures Lower(input[i..i + |w|]) == w
    ensures AllSpace(input[..i]) && AllSpace(input[i + |w|..])
  {
    var t := Trim(input);
    LowerWordIsLowerCase(w);
    assert Lower(t) == w;
    assert |t| == |w|;
    i := TrimSplits(input);
    var j := i + |t|;
    assert j == i + |w|;
    assert input[i..j] == t;
    assert AllSpace(input[j..]);
  }

  /** The target is not trimmed: a target that starts with a space cannot be
      matched by any input. */
  lemma PaddedTargetNeverMatches(input: string, w: string)
    requires w != [] && IsSpace(w[0])
    ensures !Matches(input, w)
  {
    var t := Trim(input);
    if |t| == |w| {
      LowerAt(t);
      LowerAt(w);
      assert !IsSpace(t[0]);
      assert !IsSpace(Lower(t)[0]) && IsSpace(Lower(w)[0]);
    }
  }

  /** A prefix of the word is not the word: "appl" does not match "apple". */
  lemma PrefixMismatchExample()
    ensures !Matches("appl", "apple")
  {
    TrimPadded([], "appl", []);
    assert [] + "appl" + [] == "appl";
  }

  // ---------------------------------------------------------------------------
  // Display rules
  // ---------------------------------------------------------------------------

  /** The colour of one letter of the target word. */
  datatype LetterState = Correct | Wrong | Pending

  /** The colouring of `currentWord` against `userInput`: a letter not yet
      typed is Pending; a typed letter is Correct when it equals the target
      letter ignoring case, and Wrong otherwise. */
  function Letters(word: string, input: string): (r: seq<LetterState>)
    ensures |r| == |word|
    ensures forall k :: 0 <= k < |word| ==> (r[k] == Pending <==> k >= |input|)
    ensures forall k :: 0 <= k < |word| && k < |input| ==>
      (r[k] == Correct <==> LowerChar(input[k]) == LowerChar(word[k]))
  {
    seq(|word|, k requires 0 <= k < |word| =>
      if k < |input| then
        (if LowerChar(input[k]) == LowerChar(word[k]) then Correct else Wrong)
      else Pending)
  }

  /** Characters typed beyond the end of the word colour nothing. */
  lemma ExtraInputIgnored(word: string, input: string, extra: string)
    requires |input| >= |word|
    ensures Letters(word, input + extra) == Letters(word, input)
  {
    var a, b := Letters(word, input + extra), Letters(word, input);
    forall k | 0 <= k < |word| ensures a[k] == b[k] {
      assert (input + extra)[k] == input[k];
    }
  }

  /** The whole word shows Correct exactly when the first |word| typed
      characters spell it, ignoring case. */
  lemma AllCorrectIff(word: string, input: string)
    ensures (forall k :: 0 <= k < |word| ==> Letters(word, input)[k] == Correct) <==>
      (|input| >= |word| && Lower(input[..|word|]) == Lower(word))
  {
    var r := Letters(word, input);
    if |input| < |word| {
      assert r[|input|] == Pending;
    } else {
      var a, b := Lower(input[..|word|]), Lower(word);
      LowerAt(input[..|word|]);
      LowerAt(word);
      if forall k :: 0 <= k < |word| ==> r[k] == Correct {
        forall k | 0 <= k < |word| ensures a[k] == b[k] {
          assert r[k] == Correct;
        }
      }
      if a == b {
        forall k | 0 <= k < |word| ensures r[k] == Correct {
          assert a[k] == b[k];
          assert input[..|word|][k] == input[k];
        }
      }
    }
  }

  /** An input as long as a lower-case word (every listed word is one) that
      colours every letter Correct is accepted by a submission. */
  lemma AllCorrectSubmits(word: string, input: string)
    requires IsLowerWord(word)
    requires |input| == |word|
    requires forall k :: 0 <= k < |word| ==> Letters(word, input)[k] == Correct
    ensures Matches(input, word)
  {
    LowerWordIsTrimmedLowerCase(word);
    AllCorrectIff(word, input);
    assert input[..|word|] == input;
    PaddedSpellingMatches([], input, [], word);
    assert [] + input + [] == input;
  }

  /** `getComboColor`: red, orange, gold or white. */
  datatype ComboColor = White | GoldColor | Orange | Red

  /** How hot a combo colour is, White lowest. */
  function Heat(c: ComboColor): (h: nat)
    ensures h <= 3
  {
    match c
    case White => 0
    case GoldColor => 1
    case Orange => 2
    case Red => 3
  }

  /** The colour of a combo count: thresholds 10, 7 and 4, inclusive. */
  function ComboColorOf(combo: nat): (c: ComboColor)
    ensures c == Red <==> combo >= 10
    ensures c == Orange <==> 7 <= combo < 10
    ensures c == GoldColor <==> 4 <= combo < 7
    ensures c == White <==> combo < 4
  {
    if combo >= 10 then Red
    else if combo >= 7 then Orange
    else if combo >= 4 then GoldColor
    else White
  }

  /** A longer combo never shows a cooler colour. */
  lemma ComboColorMonotone(a: nat, b: nat)
    requires a <= b
    ensures Heat(ComboColorOf(a)) <= Heat(ComboColorOf(b))
  {
  }

  // ---------------------------------------------------------------------------
  // Session state and its transitions, as values
  // ---------------------------------------------------------------------------

  /** The nine pieces of session state. */
  datatype GameState = GameState(
    currentWord: string,
    userInput: string,
    timeLeft: int,
    gameOver: bool,
    score: nat,
    highScore: nat,
    combo: nat,
    maxCombo: nat,
    isRunning: bool)

  /** The countdown runs and input is accepted. */
  predicate Active(s: GameState) {
    s.isRunning && !s.gameOver
  }

  /** What every transition keeps true, from the first render on. */
  predicate Inv(s: GameState) {
    0 <= s.timeLeft <= RoundTime &&
    (s.gameOver <==> s.timeLeft == 0) &&
    (s.gameOver ==> !s.isRunning) &&
    s.combo <= s.maxCombo
  }

  /** The invariant once a word has been generated. */
  predicate Ready(s: GameState) {
    Inv(s) && s.currentWord in Words
  }

  /** The state on the first render: no word yet, the stored high score. */
  function Initial(storedHighScore: nat): (s: GameState)
    ensures Inv(s) && !Active(s) && s.highScore == storedHighScore
  {
    GameState("", "", RoundTime, false, 0, storedHighScore, 0, 0, false)
  }

  /** `generateWord`, with the random index supplied by the caller. */
  function AfterGenerateWord(s: GameState, i: WordIndex): (r: GameState)
    ensures r == s.(currentWord := r.currentWord) && r.currentWord == Words[i]
    ensures Inv(s) ==> Inv(r)
  {
    s.(currentWord := Words[i])
  }

  /** The state once the mount effect has generated the first word. */
  function Mounted(storedHighScore: nat, i: WordIndex): (s: GameState)
    ensures Inv(s) && !Active(s) && s.currentWord == Words[i]
    ensures s.score == 0 && s.highScore == storedHighScore
  {
    AfterGenerateWord(Initial(storedHighScore), i)
  }

  /** One second of the countdown. No interval exists unless the round is
      running, so then a tick changes nothing. On the last second the round
      ends and the high score is raised to the score if it is beaten. */
  function AfterTick(s: GameState): (r: GameState)
    ensures r.score == s.score && r.combo == s.combo && r.maxCombo == s.maxCombo
    ensures r.currentWord == s.currentWord && r.userInput == s.userInput
    ensures r.highScore == if Active(s) && s.timeLeft <= 1 then Max(s.highScore, s.score) else s.highScore
    ensures Inv(s) ==> Inv(r)
  {
    if !Active(s) then s
    else if s.timeLeft <= 1 then
      s.(timeLeft := 0, gameOver := true, isRunning := false,
         highScore := if s.score > s.highScore then s.score else s.highScore)
    else s.(timeLeft := s.timeLeft - 1)
  }

  /** `handleKeyPress`: the raw text replaces the input while the round runs. */
  function AfterKeyPress(s: GameState, value: string): (r: GameState)
    ensures r == s.(userInput := r.userInput)
    ensures r.userInput == if Active(s) then value else s.userInput
    ensures Inv(s) ==> Inv(r)
  {
    if !Active(s) then s else s.(userInput := value)
  }

  /** `handleSubmit`, with the index of the next word supplied by the caller. */
  function AfterSubmit(s: GameState, next: WordIndex): (r: GameState)
    ensures r.highScore == s.highScore && r.gameOver == s.gameOver && r.isRunning == s.isRunning
    ensures r.score >= s.score && r.maxCombo >= s.maxCombo
    ensures r.currentWord == s.currentWord || r.currentWord == Words[next]
    ensures Inv(s) ==> Inv(r)
  {
    if !Active(s) then s
    else if Matches(s.userInput, s.currentWord) then
      s.(score := s.score + 1,
         combo := s.combo + 1,
         maxCombo := Max(s.maxCombo, s.combo + 1),
         timeLeft := Min(s.timeLeft + TimeBonus, RoundTime),
         currentWord := Words[next],
         userInput := "")
    else s.(combo := 0)
  }

  /** `handleRestart`. The high score and the best combo are kept. */
  function AfterRestart(s: GameState, next: WordIndex): (r: GameState)
    ensures Inv(r) && !Active(r) && r.currentWord == Words[next]
    ensures r.highScore == s.highScore && r.maxCombo == s.maxCombo
  {
    s.(score := 0, timeLeft := RoundTime, gameOver := false, userInput := "",
       combo := 0, isRunning := false, currentWord := Words[next])
  }

  /** `handleStartPause`: flips the running flag unless the round is over. */
  function AfterStartPause(s: GameState): (r: GameState)
    ensures r == s.(isRunning := r.isRunning)
    ensures r.isRunning != s.isRunning <==> !s.gameOver
    ensures Inv(s) ==> Inv(r)
  {
    if s.gameOver then s else s.(isRunning := !s.isRunning)
  }

  // ---------------------------------------------------------------------------
  // The properties of each transition
  // ---------------------------------------------------------------------------

  /** A tick on the last second ends the round: the clock stops at zero, the
      game is over, the countdown stops, and the high score becomes the larger
      of itself and the score. Nothing else changes. */
  lemma TickEndsRound(s: GameState)
    requires Active(s) && s.timeLeft <= 1
    ensures AfterTick(s) == s.(timeLeft := 0, gameOver := true, isRunning := false,
                               highScore := Max(s.highScore, s.score))
  {
  }

  /** Any other tick of a running round only decrements the clock. */
  lemma TickCountsDown(s: GameState)
    requires Active(s) && s.timeLeft > 1
    ensures AfterTick(s) == s.(timeLeft := s.timeLeft - 1)
  {
  }

  /** The round-ending tick raises the high score exactly when the score is a
      new record against the high score from before the round ended; the
      summary then shown compares the score with the raised high score and
      never sees a record. */
  lemma TickRecordIff(s: GameState)
    requires Active(s) && s.timeLeft <= 1
    ensures AfterTick(s).highScore > s.highScore <==> IsNewRecord(s.score, s.highScore)
    ensures !IsNewRecord(AfterTick(s).score, AfterTick(s).highScore)
  {
  }

  /** Input change, submit and tick do nothing outside a running round. */
  lemma InactiveIgnoresInput(s: GameState, value: string, next: WordIndex)
    requires !Active(s)
    ensures AfterKeyPress(s, value) == s
    ensures AfterSubmit(s, next) == s
    ensures AfterTick(s) == s
  {
  }

  /** A matching submission scores one, extends the combo, raises the best
      combo to it, adds the capped bonus, clears the input and moves to the
      word at `next`. */
  lemma SubmitMatch(s: GameState, next: WordIndex)
    requires Active(s) && Matches(s.userInput, s.currentWord)
    ensures var r := AfterSubmit(s, next);
      r.score == s.score + 1 && r.combo == s.combo + 1 &&
      r.maxCombo == Max(s.maxCombo, s.combo + 1) &&
      r.timeLeft == Min(s.timeLeft + 2, 30) &&
      r.userInput == "" && r.currentWord == Words[next] &&
      r.highScore == s.highScore && r.gameOver == s.gameOver && r.isRunning == s.isRunning
  {
  }

  /** A mismatching submission only resets the combo; the input stays for the
      player to correct. */
  lemma SubmitMismatch(s: GameState, next: WordIndex)
    requires Active(s) && !Matches(s.userInput, s.currentWord)
    ensures AfterSubmit(s, next) == s.(combo := 0)
  {
  }

  /** Restart begins a fresh, paused round on the word at `next`. */
  lemma RestartResets(s: GameState, next: WordIndex)
    ensures var r := AfterRestart(s, next);
      r == GameState(Words[next], "", 30, false, 0, s.highScore, 0, s.maxCombo, false)
  {
  }

  /** Restarting twice on the same word is restarting once. */
  lemma RestartIdempotent(s: GameState, next: WordIndex)
    ensures AfterRestart(AfterRestart(s, next), next) == AfterRestart(s, next)
  {
  }

  /** Pausing and resuming gives back the state before, and a paused round
      does not advance. */
  lemma PauseResume(s: GameState)
    ensures AfterStartPause(AfterStartPause(s)) == s
    ensures Active(s) ==> AfterTick(AfterStartPause(s)) == AfterStartPause(s)
  {
  }

  // ---------------------------------------------------------------------------
  // Runs of events
  // ---------------------------------------------------------------------------

  /** The events that drive a session: a tick of the interval and the four
      handlers, with the random index of the next word supplied. */
  datatype Event = Tick | KeyPress(value: string) | Submit(next: WordIndex) | Restart(next: WordIndex) | StartPause

  function Step(s: GameState, e: Event): GameState {
    match e
    case Tick => AfterTick(s)
    case KeyPress(value) => AfterKeyPress(s, value)
    case Submit(next) => AfterSubmit(s, next)
    case Restart(next) => AfterRestart(s, next)
    case StartPause => AfterStartPause(s)
  }

  lemma WordAtIsListed(i: WordIndex)
    ensures Words[i] in Words
  {
    var ws := Words;
    assert ws[i] in ws;
  }

  /** No event moves the target off the list. */
  lemma StepKeepsWordListed(s: GameState, e: Event)
    requires s.currentWord in Words
    ensures Step(s, e).currentWord in Words
  {
    match e
    case Tick =>
    case KeyPress(value) =>
    case Submit(next) =>
      WordAtIsListed(next);
    case Restart(next) =>
      WordAtIsListed(next);
    case StartPause =>
  }

  function Run(s: GameState, events: seq<Event>): GameState
    decreases |events|
  {
    if events == [] then s else Run(Step(s, events[0]), events[1..])
  }

  /** Every run keeps the invariant, never lowers the high score or the best
      combo, and keeps the target in the list once it is there. */
  lemma {:induction false} RunKeepsInvariant(s: GameState, events: seq<Event>)
    requires Inv(s)
    ensures var r := Run(s, events);
      Inv(r) && r.highScore >= s.highScore && r.maxCombo >= s.maxCombo &&
      (Ready(s) ==> Ready(r))
    decreases |events|
  {
    if events != [] {
      var t := Step(s, events[0]);
      assert t.highScore >= s.highScore && t.maxCombo >= s.maxCombo;
      if Ready(s) {
        StepKeepsWordListed(s, events[0]);
      }
      RunKeepsInvariant(t, events[1..]);
    }
  }

  /** The highest combo reached along a run, the starting one included. */
  function Peak(s: GameState, events: seq<Event>): nat
    decreases |events|
  {
    if events == [] then s.combo else Max(s.combo, Peak(Step(s, events[0]), events[1..]))
  }

  /** The best combo after a run is the larger of the best combo before it
      and the highest combo the run reaches. */
  lemma {:induction false} PeakIsMaxCombo(s: GameState, events: seq<Event>)
    requires s.combo <= s.maxCombo
    ensures Run(s, events).maxCombo == Max(s.maxCombo, Peak(s, events))
    decreases |events|
  {
    if events != [] {
      var t := Step(s, events[0]);
      assert t.maxCombo == Max(s.maxCombo, t.combo);
      PeakIsMaxCombo(t, events[1..]);
    }
  }

  /** From the first render, the best combo is exactly the highest combo
      the session has reached. */
  lemma MaxComboIsPeak(storedHighScore: nat, events: seq<Event>)
    ensures Run(Initial(storedHighScore), events).maxCombo == Peak(Initial(storedHighScore), events)
  {
    PeakIsMaxCombo(Initial(storedHighScore), events);
  }

  /** Every state a session reaches from its first render satisfies the
      invariant, and once the mount effect has picked a word every later
      target is in the list. */
  lemma Reachable(storedHighScore: nat, i: WordIndex, events: seq<Event>)
    ensures Inv(Run(Initial(storedHighScore), events))
    ensures Ready(Run(Mounted(storedHighScore, i), events))
    ensures Run(Mounted(storedHighScore, i), events).highScore >= storedHighScore
  {
    RunKeepsInvariant(Initial(storedHighScore), events);
    RunKeepsInvariant(Mounted(storedHighScore, i), events);
  }

  lemma {:induction false} RunAppend(s: GameState, a: seq<Event>, b: seq<Event>)
    ensures Run(s, a + b) == Run(Run(s, a), b)
    decreases |a|
  {
    if a == [] {
      assert a + b == b;
    } else {
      assert (a + b)[0] == a[0];
      assert (a + b)[1..] == a[1..] + b;
      RunAppend(Step(s, a[0]), a[1..], b);
    }
  }

  lemma RunOne(s: GameState, e: Event)
    ensures Run(s, [e]) == Step(s, e)
  {
    assert [e][1..] == [];
  }

  lemma ThreeEvents(e1: Event, e2: Event, e3: Event)
    ensures [e1] + [e2] + [e3] == [e1, e2, e3]
  {
  }

  function Ticks(n: nat): (r: seq<Event>)
    ensures |r| == n
  {
    seq(n, _ => Tick)
  }

  /** Ticks that leave at least a second on the clock only count down. */
  lemma {:induction false} RunTicks(s: GameState, n: nat)
    requires Active(s) && s.timeLeft > n
    ensures Run(s, Ticks(n)) == s.(timeLeft := s.timeLeft - n)
    decreases n
  {
    if n > 0 {
      var t := AfterTick(s);
      assert t == s.(timeLeft := s.timeLeft - 1);
      assert Ticks(n)[0] == Tick;
      assert Ticks(n)[1..] == Ticks(n - 1);
      RunTicks(t, n - 1);
    }
  }

  /** Left running, a round ends after exactly `timeLeft` ticks, with the high
      score raised to the score if it was beaten. */
  lemma RunOutTheClock(s: GameState)
    requires Inv(s) && Active(s)
    ensures Run(s, Ticks(s.timeLeft)) ==
      s.(timeLeft := 0, gameOver := true, isRunning := false, highScore := Max(s.highScore, s.score))
  {
    var n := s.timeLeft - 1;
    assert Ticks(s.timeLeft) == Ticks(n) + [Tick];
    RunAppend(s, Ticks(n), [Tick]);
    RunTicks(s, n);
    var t := s.(timeLeft := 1);
    assert Run(t, [Tick]) == AfterTick(t);
  }

  /** When the clock runs out, the high score is the larger of itself and
      the score. */
  lemma ClockRecordsScore(s: GameState)
    requires Inv(s) && Active(s)
    ensures Run(s, Ticks(s.timeLeft)).highScore == Max(s.highScore, s.score)
  {
    RunOutTheClock(s);
  }

  /** Typing the target exactly and submitting it. */
  function TypeAndSubmit(s: GameState, next: WordIndex): GameState {
    AfterSubmit(AfterKeyPress(s, s.currentWord), next)
  }

  /** Typing the target exactly is always a match: it scores, extends the
      combo, adds the capped bonus, clears the input and moves to the listed
      word at `next`. */
  lemma {:induction false} TypeAndSubmitScores(s: GameState, next: WordIndex)
    requires Inv(s) && Active(s) && IsLowerWord(s.currentWord)
    ensures var t := TypeAndSubmit(s, next);
      Inv(t) && Active(t) && IsLowerWord(t.currentWord) &&
      t.score == s.score + 1 && t.combo == s.combo + 1 &&
      t.maxCombo == Max(s.maxCombo, s.combo + 1) && t.highScore == s.highScore
    ensures var t := TypeAndSubmit(s, next);
      t.currentWord == Words[next] && t.userInput == "" &&
      t.timeLeft == Min(s.timeLeft + TimeBonus, RoundTime)
  {
    var typed := AfterKeyPress(s, s.currentWord);
    assert typed == s.(userInput := s.currentWord);
    WordMatchesItself(s.currentWord);
    SubmitMatch(typed, next);
    WordAtIsLowerWord(next);
  }

  /** A streak of correct submissions, one per index in `nexts`. */
  function Streak(s: GameState, nexts: seq<WordIndex>): GameState
    decreases |nexts|
  {
    if nexts == [] then s else Streak(TypeAndSubmit(s, nexts[0]), nexts[1..])
  }

  /** Each word of a streak scores one and extends the combo by one. */
  lemma {:induction false} StreakScores(s: GameState, nexts: seq<WordIndex>)
    requires Inv(s) && Active(s) && IsLowerWord(s.currentWord)
    ensures var r := Streak(s, nexts);
      Inv(r) && Active(r) && IsLowerWord(r.currentWord)
    ensures var r := Streak(s, nexts);
      r.score == s.score + |nexts| && r.combo == s.combo + |nexts| &&
      r.maxCombo == Max(s.maxCombo, s.combo + |nexts|) && r.highScore == s.highScore
    decreases |nexts|
  {
    if nexts != [] {
      var t := TypeAndSubmit(s, nexts[0]);
      TypeAndSubmitScores(s, nexts[0]);
      StreakScores(t, nexts[1..]);
      var r := Streak(t, nexts[1..]);
      assert Streak(s, nexts) == r;
      assert r.maxCombo == Max(Max(s.maxCombo, s.combo + 1), s.combo + |nexts|);
    }
  }

  /** Starting the round right after the first word is generated. */
  lemma FreshStart(storedHighScore: nat, i: WordIndex)
    ensures var s := AfterStartPause(Mounted(storedHighScore, i));
      Inv(s) && Active(s) && IsLowerWord(s.currentWord) && s.timeLeft == 30 &&
      s.score == 0 && s.combo == 0 && s.maxCombo == 0 && s.highScore == storedHighScore
  {
    WordAtIsLowerWord(i);
  }

  /** Ten correct words from a fresh start with no high score: score, combo
      and best combo are ten, the medal is Bronze and ten is a new record. */
  lemma TenCorrectWords(s: GameState, nexts: seq<WordIndex>)
    requires Inv(s) && Active(s) && IsLowerWord(s.currentWord)
    requires s.score == 0 && s.combo == 0 && s.maxCombo == 0 && s.highScore == 0
    requires |nexts| == 10
    ensures var r := Streak(s, nexts);
      r.score == 10 && r.combo == 10 && r.maxCombo == 10 &&
      GetMedal(r.score) == Bronze && IsNewRecord(r.score, 0)
  {
    StreakScores(s, nexts);
    var r := Streak(s, nexts);
    assert r.score == 10 && r.combo == 10 && r.maxCombo == Max(0, 10);
    assert GetMedal(10) == Bronze;
  }

  /** After those ten words, when the clock runs out the high score becomes
      ten. */
  lemma TenCorrectWordsThenTimeUp(s: GameState, nexts: seq<WordIndex>)
    requires Inv(s) && Active(s) && IsLowerWord(s.currentWord)
    requires s.score == 0 && s.highScore == 0
    requires |nexts| == 10
    ensures var r := Streak(s, nexts);
      0 <= r.timeLeft && Run(r, Ticks(r.timeLeft)).highScore == 10
  {
    StreakScores(s, nexts);
    var r := Streak(s, nexts);
    assert r.score == 10 && r.highScore == 0;
    ClockRecordsScore(r);
  }

  // ---------------------------------------------------------------------------
  // The tick as written: stale score and high score
  // ---------------------------------------------------------------------------

  /** The interval body as the source has it. The interval is set up when the
      round starts or resumes and is not set up again while it runs, so it
      compares and stores `closureScore` and `closureHighScore`, the values
      at that moment, rather than the current ones. */
  function TickAsWritten(s: GameState, closureScore: nat, closureHighScore: nat): (r: GameState)
    ensures r.highScore >= s.highScore || r.highScore == closureScore
  {
    if !Active(s) then s
    else if s.timeLeft <= 1 then
      s.(timeLeft := 0, gameOver := true, isRunning := false,
         highScore := if closureScore > closureHighScore then closureScore else s.highScore)
    else s.(timeLeft := s.timeLeft - 1)
  }

  /** With no stored record and `w` the first word generated: start the
      round, type the word and submit it. */
  lemma FirstWordSubmitted(w: string, next: WordIndex)
    requires IsLowerWord(w)
    ensures Run(Initial(0).(currentWord := w), [StartPause, KeyPress(w), Submit(next)]) ==
      GameState(Words[next], "", 30, false, 1, 0, 1, 1, true)
  {
    var m := Initial(0).(currentWord := w);
    var a := AfterStartPause(m);
    var b := AfterKeyPress(a, w);
    assert b == a.(userInput := w);
    WordMatchesItself(w);
    SubmitMatch(b, next);
    RunOne(m, StartPause);
    RunOne(a, KeyPress(w));
    RunOne(b, Submit(next));
    RunAppend(m, [StartPause], [KeyPress(w)]);
    RunAppend(m, [StartPause] + [KeyPress(w)], [Submit(next)]);
    ThreeEvents(StartPause, KeyPress(w), Submit(next));
  }

  /** Then let the clock run down to its last second. The interval was set
      up by the start, when score and high score were both 0, so the last
      tick as written keeps the high score at 0 although the round scored 1;
      the corrected tick records 1. */
  lemma TickAsWrittenLosesRecord(w: string, next: WordIndex)
    requires IsLowerWord(w)
    ensures var m := Initial(0).(currentWord := w);
      var started := AfterStartPause(m);
      var s := Run(m, [StartPause, KeyPress(w), Submit(next)] + Ticks(29));
      s.score == 1 && s.highScore == 0 && Active(s) && s.timeLeft == 1 &&
      started.score == 0 && started.highScore == 0 &&
      TickAsWritten(s, started.score, started.highScore).gameOver &&
      TickAsWritten(s, started.score, started.highScore).highScore == 0 &&
      AfterTick(s).gameOver && AfterTick(s).highScore == 1
  {
    var m := Initial(0).(currentWord := w);
    var start: seq<Event> := [StartPause, KeyPress(w), Submit(next)];
    FirstWordSubmitted(w, next);
    var c := GameState(Words[next], "", 30, false, 1, 0, 1, 1, true);
    RunAppend(m, start, Ticks(29));
    RunTicks(c, 29);
  }

  /** The first word the mount effect generates is such a word. */
  lemma MountedWithWord(storedHighScore: nat, i: WordIndex)
    ensures Mounted(storedHighScore, i) == Initial(storedHighScore).(currentWord := Words[i])
    ensures IsLowerWord(Words[i])
  {
    WordAtIsLowerWord(i);
  }

  // ---------------------------------------------------------------------------
  // The session as a mutable object
  // ---------------------------------------------------------------------------

  /** The component's state: one field per `useState`, one method per
      transition. */
  class Session {
    var currentWord: string
    var userInput: string
    var timeLeft: int
    var gameOver: bool
    var score: nat
    var highScore: nat
    var combo: nat
    var maxCombo: nat
    var isRunning: bool

    function State(): GameState
      reads this
    {
      GameState(currentWord, userInput, timeLeft, gameOver, score, highScore, combo, maxCombo, isRunning)
    }

    predicate Valid()
      reads this
    {
      Inv(State())
    }

    /** The first render, with the high score read from storage. */
    constructor (storedHighScore: nat)
      ensures Valid() && State() == Initial(storedHighScore)
    {
      currentWord := "";
      userInput := "";
      timeLeft := RoundTime;
      gameOver := false;
      score := 0;
      highScore := storedHighScore;
      combo := 0;
      maxCombo := 0;
      isRunning := false;
    }

    method GenerateWord(i: WordIndex)
      requires Valid()
      modifies this`currentWord
      ensures Valid()
      ensures State() == AfterGenerateWord(old(State()), i)
    {
      currentWord := Words[i];
    }

    method Tick()
      requires Valid()
      modifies this
      ensures Valid()
      ensures State() == AfterTick(old(State()))
    {
      if !isRunning || gameOver {
        return;
      }
      if timeLeft <= 1 {
        gameOver := true;
        isRunning := false;
        if score > highScore {
          highScore := score;
        }
        timeLeft := 0;
      } else {
        timeLeft := timeLeft - 1;
      }
    }

    method HandleKeyPress(value: string)
      requires Valid()
      modifies this
      ensures Valid()
      ensures State() == AfterKeyPress(old(State()), value)
    {
      if !isRunning || gameOver {
        return;
      }
      userInput := value;
    }

    method HandleSubmit(next: WordIndex)
      requires Valid()
      modifies this
      ensures Valid()
      ensures State() == AfterSubmit(old(State()), next)
    {
      if !isRunning || gameOver {
        return;
      }
      ghost var s := State();
      if Lower(Trim(userInput)) == Lower(currentWord) {
        SubmitMatch(s, next);
        score := score + 1;
        var newCombo := combo + 1;
        if newCombo > maxCombo {
          maxCombo := newCombo;
        }
        combo := newCombo;
        timeLeft := Min(timeLeft + TimeBonus, RoundTime);
        currentWord := Words[next];  // generateWord()
        userInput := "";
      } else {
        SubmitMismatch(s, next);
        combo := 0;
      }
    }

    method HandleRestart(next: WordIndex)
      requires Valid()
      modifies this
      ensures Valid()
      ensures State() == AfterRestart(old(State()), next)
    {
      score := 0;
      timeLeft := RoundTime;
      gameOver := false;
      userInput := "";
      combo := 0;
      isRunning := false;
      GenerateWord(next);
    }

    method HandleStartPause()
      requires Valid()
      modifies this
      ensures Valid()
      ensures State() == AfterStartPause(old(State()))
    {
      if gameOver {
        return;
      }
      isRunning := !isRunning;
    }
  }
}
