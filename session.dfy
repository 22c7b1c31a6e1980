/**
 * The game session: the `@State` fields of ContentView and the operations
 * that change them.  The dictionary lookup is injected as `isReal`; the root
 * word's random choice is passed in as a list and a draw.
 */
module WordGame {
  import opened Wrappers
  import Text
  import Spelling
  import Rules

  /** Total of the points in `awards`. */
  function Sum(awards: seq<nat>): nat {
    if awards == [] then 0 else awards[0] + Sum(awards[1..])
  }

  /** Every accepted word earns at least 5, so the score is at least 5 per word. */
  lemma {:induction false} SumOfAwards(awards: seq<nat>)
    requires forall i :: 0 <= i < |awards| ==> awards[i] >= 5
    ensures Sum(awards) >= 5 * |awards|
    ensures Sum(awards) == 0 <==> awards == []
  {
    if awards != [] {
      SumOfAwards(awards[1..]);
    }
  }

  predicate NoDuplicates(words: seq<string>) {
    forall i, j :: 0 <= i < j < |words| ==> words[i] != words[j]
  }

  /** An original answer in front of a list without duplicates leaves none. */
  lemma {:induction false} OriginalKeepsNoDuplicates(answer: string, words: seq<string>)
    requires Rules.IsOriginal(answer, words) && NoDuplicates(words)
    ensures NoDuplicates([answer] + words)
  {
    var ws := [answer] + words;
    forall i, j | 0 <= i < j < |ws| ensures ws[i] != ws[j] {
      assert ws[j] == words[j - 1];
      if i > 0 {
        assert ws[i] == words[i - 1];
      }
    }
  }

  /** A word fit for the history: normalised, long enough and known to the lexicon. */
  predicate IsAcceptedWord(w: string, isReal: string -> bool) {
    Text.IsLowered(w) && Text.IsTrimmed(w) && Rules.IsTooSmall(w) && isReal(w)
  }

  /**
   * The history invariant: no word twice, every word acceptable, one award
   * of at least 5 points per word and a score that is their total.
   */
  ghost predicate ValidHistory(words: seq<string>, awards: seq<nat>, score: int, isReal: string -> bool) {
    && |awards| == |words|
    && (forall i :: 0 <= i < |awards| ==> awards[i] >= 5)
    && score == Sum(awards)
    && NoDuplicates(words)
    && (forall i :: 0 <= i < |words| ==> IsAcceptedWord(words[i], isReal))
  }

  /** Every word can be spelled from `root` and differs from it. */
  predicate AllFromRoot(words: seq<string>, root: string) {
    forall i :: 0 <= i < |words| ==> Spelling.Spellable(words[i], root) && words[i] != root
  }

  /** In a valid history the score is 0 exactly when no word was accepted. */
  lemma ScoreOfValidHistory(words: seq<string>, awards: seq<nat>, score: int, isReal: string -> bool)
    requires ValidHistory(words, awards, score, isReal)
    ensures score >= 5 * |words|
    ensures score == 0 <==> words == []
  {
    SumOfAwards(awards);
  }

  /** Prepending a fresh acceptable word with its award keeps the history valid. */
  lemma PrependKeepsHistoryValid(words: seq<string>, awards: seq<nat>, score: int, isReal: string -> bool,
                                 answer: string, award: nat)
    requires ValidHistory(words, awards, score, isReal)
    requires IsAcceptedWord(answer, isReal) && Rules.IsOriginal(answer, words) && award >= 5
    ensures ValidHistory([answer] + words, [award] + awards, score + award, isReal)
  {
    var ws, ps := [answer] + words, [award] + awards;
    assert ws[1..] == words && ps[1..] == awards;
    OriginalKeepsNoDuplicates(answer, words);
  }

  /** Prepending a word spelled from the root, and not the root, keeps AllFromRoot. */
  lemma PrependKeepsAllFromRoot(words: seq<string>, root: string, answer: string)
    requires Spelling.Spellable(answer, root) && answer != root
    ensures AllFromRoot(words, root) ==> AllFromRoot([answer] + words, root)
  {
    var ws := [answer] + words;
    forall i | 0 < i < |ws| ensures ws[i] == words[i - 1] { }
  }

  /**
   * Once a word is in the history, any later input that differs from the
   * one that produced it only in letter case and surrounding whitespace is
   * turned down as "used already".
   */
  lemma ResubmissionIsUsedAlready(first: string, pre: string, again: string, post: string,
                                  root: string, used: seq<string>, isReal: string -> bool)
    requires Text.IsBlank(pre) && Text.IsBlank(post)
    requires Text.Lowercased(again) == Text.Lowercased(first)
    requires Text.Normalize(first) in used
    ensures Text.Normalize(pre + again + post) == Text.Normalize(first)
    ensures Rules.Validate(Text.Normalize(pre + again + post), root, used, isReal) == Some(Rules.WordUsedAlready)
  {
    Text.NormalizeIgnoresPadding(pre, again, post);
    Text.NormalizeIgnoresCase(again);
    Text.NormalizeIgnoresCase(first);
  }

  class Session {
    /** The dictionary check `isReal`, a platform lexicon lookup. */
    const isReal: string -> bool

    var rootWord: string
    /** Accepted words, most recent first. */
    var usedWords: seq<string>
    /** The raw contents of the text field. */
    var newWord: string
    var errorTitle: string
    var errorMessage: string
    var showError: bool
    var score: int
    /** The points each entry of usedWords earned, in the same order. */
    ghost var awards: seq<nat>

    /** What the session keeps true whatever the root word. */
    ghost predicate Valid()
      reads this
    {
      ValidHistory(usedWords, awards, score, isReal)
    }

    /** Every used word was spellable from, and differs from, the current root. */
    ghost predicate AgreesWithRoot()
      reads this
    {
      AllFromRoot(usedWords, rootWord)
    }

    /** The initial values of the `@State` fields. */
    constructor (isReal: string -> bool)
      ensures this.isReal == isReal
      ensures rootWord == "" && usedWords == [] && newWord == "" && score == 0
      ensures errorTitle == "" && errorMessage == "" && !showError
      ensures Valid() && AgreesWithRoot()
    {
      this.isReal := isReal;
      rootWord, usedWords, newWord := "", [], "";
      errorTitle, errorMessage, showError := "", "", false;
      score := 0;
      awards := [];
    }

    /** The text field's binding: the player edits `newWord`. */
    method Type(text: string)
      modifies this`newWord
      ensures newWord == text
    {
      newWord := text;
    }

    /** wordError: records the alert to show. */
    method WordError(title: string, message: string)
      modifies this`errorTitle, this`errorMessage, this`showError
      ensures errorTitle == title && errorMessage == message && showError
    {
      errorTitle := title;
      errorMessage := message;
      showError := true;
    }

    /** startGame: picks the root word and changes nothing else. */
    method StartGame(allWords: seq<string>, draw: nat)
      requires allWords != [] ==> draw < |allWords|
      requires Valid()
      modifies this`rootWord
      ensures rootWord == Rules.PickRoot(allWords, draw)
      ensures Valid()
      ensures usedWords == [] ==> AgreesWithRoot()
    {
      rootWord := Rules.PickRoot(allWords, draw);
    }

    /** restartGame: empties the history, clears the input and the score, picks a root. */
    method RestartGame(allWords: seq<string>, draw: nat)
      requires allWords != [] ==> draw < |allWords|
      modifies this
      ensures usedWords == [] && newWord == "" && score == 0
      ensures rootWord == Rules.PickRoot(allWords, draw)
      ensures errorTitle == old(errorTitle) && errorMessage == old(errorMessage) && showError == old(showError)
      ensures Valid() && AgreesWithRoot()
    {
      usedWords := [];
      awards := [];
      newWord := "";
      score := 0;
      rootWord := Rules.PickRoot(allWords, draw);
    }

    /**
     * addNewWord: normalises the input, runs the guard chain and either
     * reports the first failing guard or records the word and its points.
     */
    method AddNewWord()
      requires Valid()
      modifies this
      ensures Valid()
      ensures old(AgreesWithRoot()) ==> AgreesWithRoot()
      ensures rootWord == old(rootWord)
      ensures score >= old(score)
      // blank input: nothing at all changes
      ensures Text.Normalize(old(newWord)) == [] ==>
        && usedWords == old(usedWords) && score == old(score) && newWord == old(newWord)
        && errorTitle == old(errorTitle) && errorMessage == old(errorMessage)
        && showError == old(showError)
      // rejection: the first failing guard's alert, nothing else changes
      ensures var answer := Text.Normalize(old(newWord));
        var outcome := Rules.Validate(answer, old(rootWord), old(usedWords), isReal);
        answer != [] && outcome.Some? ==>
          && usedWords == old(usedWords) && score == old(score) && newWord == old(newWord)
          && errorTitle == Rules.Title(outcome.value)
          && errorMessage == Rules.Message(outcome.value, rootWord)
          && showError
      // acceptance: the answer goes in front, the score grows, the field clears
      ensures var answer := Text.Normalize(old(newWord));
        answer != [] && Rules.Validate(answer, old(rootWord), old(usedWords), isReal) == None ==>
          && usedWords == [answer] + old(usedWords)
          && score == old(score) + Rules.Award(|old(newWord)|)
          && newWord == ""
          && errorTitle == old(errorTitle) && errorMessage == old(errorMessage)
          && showError == old(showError)
    {
      var answer := Text.Normalize(newWord);
      if |answer| == 0 {
        return;
      }
      if !Rules.IsOriginal(answer, usedWords) {
        var e := Rules.WordUsedAlready;
        WordError(Rules.Title(e), Rules.Message(e, rootWord));
        return;
      }
      var possible := Spelling.IsPossible(answer, rootWord);
      if !possible {
        var e := Rules.WordNotPossible;
        WordError(Rules.Title(e), Rules.Message(e, rootWord));
        return;
      }
      if !isReal(answer) {
        var e := Rules.WordNotRecognized;
        WordError(Rules.Title(e), Rules.Message(e, rootWord));
        return;
      }
      if !Rules.IsEqual(answer, rootWord) {
        var e := Rules.RepeatedWord;
        WordError(Rules.Title(e), Rules.Message(e, rootWord));
        return;
      }
      if !Rules.IsTooSmall(answer) {
        var e := Rules.WordTooSmall;
        WordError(Rules.Title(e), Rules.Message(e, rootWord));
        return;
      }

      RecordAnswer(answer);
    }

    /**
     * The acceptance step of addNewWord: the answer goes in front of the
     * list, 5 points plus the length bonus of the raw input are added, and
     * the text field is cleared.
     */
    method RecordAnswer(answer: string)
      requires Valid()
      requires Text.IsLowered(answer) && Text.IsTrimmed(answer)
      requires Rules.Validate(answer, rootWord, usedWords, isReal) == None
      modifies this`usedWords, this`awards, this`score, this`newWord
      ensures Valid()
      ensures old(AgreesWithRoot()) ==> AgreesWithRoot()
      ensures usedWords == [answer] + old(usedWords)
      ensures score == old(score) + Rules.Award(|old(newWord)|)
      ensures newWord == ""
    {
      ghost var before, award := score, Rules.Award(|newWord|);
      ScoreOfValidHistory(usedWords, awards, score, isReal);
      PrependKeepsHistoryValid(usedWords, awards, score, isReal, answer, award);
      PrependKeepsAllFromRoot(usedWords, rootWord, answer);
      usedWords := [answer] + usedWords;
      awards := [award] + awards;

      // with usedWords empty the score was 0, so both branches add 5
      if |usedWords| == 1 {
        score := 5;
      } else {
        score := score + 5;
      }
      assert score == before + 5;

      match |newWord| {
        case 3 => score := score + 3;
        case 4 => score := score + 4;
        case 5 => score := score + 5;
        case 6 => score := score + 6;
        case 7 => score := score + 7;
        case _ => score := score;
      }

      newWord := "";
    }
  }
}
