// Phonetic Hangman: the player sees a transcription and guesses the word's
// letters on an on-screen keyboard. Eight wrong letters end the round; a
// fully revealed word wins it and scores a point. Ten rounds make a game.
module PhoneticHangmanGame {
  import opened Wrappers
  import opened Text
  import opened Collections
  import opened Dictionary
  import opened GameRules

  const MaxRounds := 10
  const MaxGuesses := 8
  /** The three keyboard rows, read one after the other. */
  const Keys := "qwertyuiopasdfghjklzxcvbnm"

  predicate IsAsciiLetter(c: char)
  {
    'a' <= c <= 'z' || 'A' <= c <= 'Z'
  }

  /** The word filter of `getRandomWord`: a transcription, 4 to 10 letters, letters only. */
  predicate Suitable(e: Entry)
  {
    HasPhonetics(e) && 4 <= |e.word| <= 10 && forall i :: 0 <= i < |e.word| ==> IsAsciiLetter(e.word[i])
  }

  /** The candidates a round draws from, in dictionary order. */
  function Candidates(dict: seq<Entry>): (r: seq<Entry>)
    ensures |r| <= |dict|
    ensures forall e :: e in r <==> e in dict && Suitable(e)
  {
    Filter(dict, Suitable)
  }

  /** One character of the display: the letter once guessed (or a space), else `_`. */
  function MaskChar(c: char, guessed: set<char>): char
  {
    if c in guessed || c == ' ' then c else '_'
  }

  /** The text `renderWordDisplay` builds: every character masked, then a space. */
  function Masked(w: string, guessed: set<char>): string
  {
    if w == [] then [] else Masked(w[..|w| - 1], guessed) + [MaskChar(w[|w| - 1], guessed), ' ']
  }

  /** The display is twice as long as the word, each character at an even place followed by a space. */
  lemma {:induction false} MaskedShape(w: string, guessed: set<char>)
    ensures |Masked(w, guessed)| == 2 * |w|
    ensures forall i :: 0 <= i < |w| ==>
      Masked(w, guessed)[2 * i] == MaskChar(w[i], guessed) && Masked(w, guessed)[2 * i + 1] == ' '
  {
    if w != [] {
      var init := w[..|w| - 1];
      MaskedShape(init, guessed);
      forall i | 0 <= i < |w|
        ensures Masked(w, guessed)[2 * i] == MaskChar(w[i], guessed) && Masked(w, guessed)[2 * i + 1] == ' '
      {
        if i < |init| {
          assert w[i] == init[i];
        }
      }
    }
  }

  /** The `every` test of `checkGameStatus`. */
  predicate AllLettersGuessed(w: string, guessed: set<char>)
  {
    forall i :: 0 <= i < |w| ==> w[i] in guessed || w[i] == ' '
  }

  /** For a word without underscores, the round is won exactly when no `_` is left on screen. */
  lemma WonIffNoBlank(w: string, guessed: set<char>)
    requires forall i :: 0 <= i < |w| ==> w[i] != '_'
    ensures AllLettersGuessed(w, guessed) <==> '_' !in Masked(w, guessed)
  {
    MaskedShape(w, guessed);
    var m := Masked(w, guessed);
    if !AllLettersGuessed(w, guessed) {
      var i :| 0 <= i < |w| && w[i] !in guessed && w[i] != ' ';
      assert m[2 * i] == '_';
    }
  }

  /** The guessed letters the word does not contain: each cost a life. */
  function WrongGuesses(w: string, guessed: set<char>): (r: set<char>)
    ensures r <= guessed
    ensures forall i :: 0 <= i < |w| ==> w[i] !in r
  {
    set c | c in guessed && c !in w
  }

  /** A new letter adds to the wrong guesses exactly when the word lacks it. */
  lemma WrongGuessesGrow(w: string, guessed: set<char>, letter: char)
    requires letter !in guessed
    ensures |WrongGuesses(w, guessed + {letter})|
      == |WrongGuesses(w, guessed)| + (if letter in w then 0 else 1)
  {
    if letter in w {
      assert WrongGuesses(w, guessed + {letter}) == WrongGuesses(w, guessed);
    } else {
      assert WrongGuesses(w, guessed + {letter}) == WrongGuesses(w, guessed) + {letter};
    }
  }

  /** A candidate word lowered is all letters, so an empty guess set leaves it unsolved. */
  lemma FreshRoundUnsolved(e: Entry)
    requires Suitable(e)
    ensures !AllLettersGuessed(Lower(e.word), {})
  {
    assert IsAsciiLetter(e.word[0]);
    assert Lower(e.word)[0] == LowerChar(e.word[0]);
  }

  /** The draw `Math.floor(Math.random() * n)` picks a candidate: a suitable dictionary word. */
  lemma DrawnWordSuitable(dict: seq<Entry>, draw: real)
    requires 0.0 <= draw < 1.0 && Candidates(dict) != []
    ensures var c := Candidates(dict);
      c[Pick(draw, |c|)] in dict && Suitable(c[Pick(draw, |c|)])
  {
    var c := Candidates(dict);
    assert c[Pick(draw, |c|)] in c;
  }

  class PhoneticHangman {
    var score: nat
    var round: nat
    var currentWord: Option<Entry>
    var guessedLetters: set<char>
    var remainingGuesses: int
    /** The round is decided: Next is enabled and every key disabled. */
    var roundOver: bool
    var gameOver: bool
    var wordDisplay: string
    var phoneticDisplay: string
    var percentage: int

    /** `currentWord.word.toLowerCase()`. */
    function WordText(): string
      reads this`currentWord
      requires currentWord.Some?
    {
      Lower(currentWord.value.word)
    }

    /**
     * A key is disabled once the round is decided, and once its letter is
     * guessed on a drawn word: without one, the keyboard is not drawn again
     * after a press.
     */
    predicate KeyDisabled(letter: char)
      reads this
    {
      roundOver || (currentWord.Some? && letter in guessedLetters)
    }

    /**
     * Lives are eight minus the wrong letters and never negative, the display
     * is the masked word, and the round is decided exactly when the word is
     * revealed or the lives are gone.
     */
    ghost predicate RoundState()
      reads this`currentWord, this`guessedLetters, this`remainingGuesses, this`wordDisplay, this`roundOver
    {
      remainingGuesses >= 0
      && (currentWord.None? ==> remainingGuesses == MaxGuesses && wordDisplay == [] && !roundOver)
      && (currentWord.Some? ==>
            Suitable(currentWord.value)
            && remainingGuesses == MaxGuesses - |WrongGuesses(WordText(), guessedLetters)|
            && wordDisplay == Masked(WordText(), guessedLetters)
            && (roundOver <==> AllLettersGuessed(WordText(), guessedLetters) || remainingGuesses <= 0))
    }

    /** The round state holds, and a round scores at most once. */
    ghost predicate Valid()
      reads this
    {
      round <= MaxRounds && score <= round
      && (round > 0 && !roundOver ==> score < round)
      && RoundState()
    }

    constructor()
      ensures Valid() && score == 0 && round == 0 && currentWord.None?
    {
      score, round := 0, 0;
      currentWord := None;
      guessedLetters := {};
      remainingGuesses := MaxGuesses;
      roundOver, gameOver := false, false;
      wordDisplay, phoneticDisplay := [], [];
      percentage := 0;
    }

    /** `renderWordDisplay`: the masked word, or nothing before a word is drawn. */
    method RenderWordDisplay()
      modifies this`wordDisplay
      ensures wordDisplay == if currentWord.None? then [] else Masked(WordText(), guessedLetters)
    {
      if currentWord.None? {
        wordDisplay := [];
        return;
      }
      var w := Lower(currentWord.value.word);
      var text := [];
      for i := 0 to |w|
        invariant text == Masked(w[..i], guessedLetters)
      {
        assert w[..i + 1][..i] == w[..i];
        if w[i] in guessedLetters || w[i] == ' ' {
          text := text + [w[i], ' '];
        } else {
          text := text + "_ ";
        }
      }
      assert w[..|w|] == w;
      wordDisplay := text;
    }

    /** `checkGameStatus`: a revealed word wins, even with no lives left; else no lives loses. */
    method CheckGameStatus()
      requires currentWord.Some?
      modifies this`score, this`roundOver
      ensures var won := AllLettersGuessed(WordText(), guessedLetters);
        var decided := won || remainingGuesses <= 0;
        score == old(score) + (if won then 1 else 0)
        && roundOver == (old(roundOver) || decided)
    {
      var w := Lower(currentWord.value.word);
      var allLettersGuessed := AllLettersGuessed(w, guessedLetters);
      var outOfGuesses := remainingGuesses <= 0;
      if allLettersGuessed || outOfGuesses {
        if allLettersGuessed {
          score := score + 1;
        }
        roundOver := true;
      }
    }

    /**
     * `makeGuess` on an enabled key: record it, take a life if the word lacks
     * it, redraw, decide. The keyboard exists from the first round on; with
     * no word drawn, reading the word throws once the letter is recorded.
     */
    method MakeGuess(letter: char) returns (thrown: bool)
      requires Valid() && round > 0 && letter in Keys && !KeyDisabled(letter)
      modifies this`guessedLetters, this`remainingGuesses, this`wordDisplay, this`score, this`roundOver
      ensures Valid()
      ensures guessedLetters == old(guessedLetters) + {letter}
      ensures thrown <==> currentWord.None?
      ensures thrown ==>
        remainingGuesses == old(remainingGuesses) && wordDisplay == old(wordDisplay)
        && score == old(score) && roundOver == old(roundOver)
      ensures !thrown ==> remainingGuesses == old(remainingGuesses) - (if letter in WordText() then 0 else 1)
      ensures !thrown ==> (roundOver <==> AllLettersGuessed(WordText(), guessedLetters) || remainingGuesses <= 0)
      ensures !thrown ==> score == old(score) + (if AllLettersGuessed(WordText(), guessedLetters) then 1 else 0)
    {
      guessedLetters := guessedLetters + {letter};
      if currentWord.None? {
        return true;
      }
      thrown := false;
      WrongGuessesGrow(WordText(), old(guessedLetters), letter);
      var isCorrect := letter in Lower(currentWord.value.word);
      if !isCorrect {
        remainingGuesses := remainingGuesses - 1;
      }
      RenderWordDisplay();
      CheckGameStatus();
    }

    /** `getRandomWord`: a drawn candidate and its transcription; nothing changes when there is none. */
    method GetRandomWord(dict: seq<Entry>, draw: real)
      requires 0.0 <= draw < 1.0
      requires currentWord.Some? ==> Suitable(currentWord.value)
      modifies this`currentWord, this`phoneticDisplay
      ensures var c := Candidates(dict);
        if c == [] then currentWord == old(currentWord) && phoneticDisplay == old(phoneticDisplay)
        else currentWord == Some(c[Pick(draw, |c|)]) && phoneticDisplay == Preferred(currentWord.value)
      ensures currentWord.Some? ==> Suitable(currentWord.value)
    {
      var wordsWithPhonetics := Candidates(dict);
      if |wordsWithPhonetics| == 0 {
        return;
      }
      DrawnWordSuitable(dict, draw);
      var randomIndex := Pick(draw, |wordsWithPhonetics|);
      currentWord := Some(wordsWithPhonetics[randomIndex]);
      phoneticDisplay := Preferred(currentWord.value);
    }

    /** `endGame`: the accuracy out of the ten rounds. */
    method EndGame()
      requires Valid()
      modifies this`percentage, this`gameOver
      ensures gameOver && percentage == RoundedPercent(score, MaxRounds)
      ensures 0 <= percentage <= 100
    {
      PercentAtMostHundred(score, MaxRounds);
      percentage := RoundedPercent(score, MaxRounds);
      gameOver := true;
    }

    /** `nextRound`: after ten rounds the game ends; otherwise a fresh round on a drawn word. */
    method NextRound(dict: seq<Entry>, draw: real)
      requires Valid() && 0.0 <= draw < 1.0
      modifies this`round, this`guessedLetters, this`remainingGuesses, this`currentWord, this`phoneticDisplay,
               this`wordDisplay, this`roundOver, this`percentage, this`gameOver
      ensures Valid()
      ensures old(round) >= MaxRounds ==> gameOver && round == old(round) && percentage == RoundedPercent(score, MaxRounds)
      ensures old(round) >= MaxRounds ==>
        currentWord == old(currentWord) && guessedLetters == old(guessedLetters) && remainingGuesses == old(remainingGuesses)
        && wordDisplay == old(wordDisplay) && phoneticDisplay == old(phoneticDisplay) && roundOver == old(roundOver)
      ensures old(round) < MaxRounds ==>
        round == old(round) + 1 && guessedLetters == {} && remainingGuesses == MaxGuesses && !roundOver
        && gameOver == old(gameOver)
        && (Candidates(dict) != [] ==> currentWord == Some(Candidates(dict)[Pick(draw, |Candidates(dict)|)]))
        && (Candidates(dict) == [] ==> currentWord == old(currentWord))
    {
      if round >= MaxRounds {
        EndGame();
        return;
      }
      BeginRound(dict, draw);
    }

    /** The body of `nextRound` below the round limit. */
    method BeginRound(dict: seq<Entry>, draw: real)
      requires Valid() && round < MaxRounds && 0.0 <= draw < 1.0
      modifies this`round, this`guessedLetters, this`remainingGuesses, this`currentWord, this`phoneticDisplay,
               this`wordDisplay, this`roundOver
      ensures Valid()
      ensures round == old(round) + 1 && guessedLetters == {} && remainingGuesses == MaxGuesses && !roundOver
      ensures Candidates(dict) != [] ==> currentWord == Some(Candidates(dict)[Pick(draw, |Candidates(dict)|)])
      ensures Candidates(dict) == [] ==> currentWord == old(currentWord)
    {
      round := round + 1;
      GetRandomWord(dict, draw);
      ResetRound();
    }

    /** The reset of `nextRound`: no letters guessed, eight lives, the word redrawn, the keys enabled. */
    method ResetRound()
      requires currentWord.Some? ==> Suitable(currentWord.value)
      modifies this`guessedLetters, this`remainingGuesses, this`wordDisplay, this`roundOver
      ensures RoundState()
      ensures guessedLetters == {} && remainingGuesses == MaxGuesses && !roundOver
    {
      guessedLetters := {};
      remainingGuesses := MaxGuesses;
      RenderWordDisplay();
      roundOver := false;
      if currentWord.Some? {
        FreshRoundUnsolved(currentWord.value);
        assert WrongGuesses(WordText(), {}) == {};
      }
    }

    /** `startGame`: score and round back to zero, then the first round. */
    method StartGame(dict: seq<Entry>, draw: real)
      requires Valid() && 0.0 <= draw < 1.0
      modifies this`score, this`round, this`guessedLetters, this`remainingGuesses, this`currentWord,
               this`phoneticDisplay, this`wordDisplay, this`roundOver, this`percentage, this`gameOver
      ensures Valid() && score == 0 && round == 1 && !gameOver
      ensures guessedLetters == {} && remainingGuesses == MaxGuesses && !roundOver
      ensures Candidates(dict) != [] ==> currentWord == Some(Candidates(dict)[Pick(draw, |Candidates(dict)|)])
      ensures Candidates(dict) == [] ==> currentWord == old(currentWord)
    {
      score := 0;
      round := 0;
      gameOver := false;
      NextRound(dict, draw);
    }
  }
}
