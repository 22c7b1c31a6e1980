/**
 * Example rounds, mostly against the root "silkworm" (the not-recognized
 * round uses "quizzax" and a lexicon that rejects "zzqx"), stated on the
 * functions that AddNewWord's contract is written in: what the answer
 * becomes, which guard (if any) fails and what an accepted word earns.
 */
module Scenarios {
  import opened Wrappers
  import Text
  import Spelling
  import Rules

  /** A stand-in lexicon that knows every word except "zzqx". */
  function Lexicon(w: string): bool {
    w != "zzqx"
  }

  /** Root "silkworm": "silk" is accepted and earns 5 + 4. */
  lemma SilkIsAccepted()
    ensures Rules.Validate("silk", "silkworm", [], Lexicon) == None
    ensures Rules.Award(|"silk"|) == 9
  {
    Spelling.SilkIsSpellable();
  }

  /** Typed as "silk", the answer is "silk". */
  lemma SilkIsClean()
    ensures Text.Normalize("silk") == "silk"
  {
    Text.NormalizeKeepsClean("silk");
  }

  /** Once "silk" is used, submitting it again is "used already". */
  lemma SilkAgainIsUsedAlready()
    ensures Rules.Validate("silk", "silkworm", ["silk"], Lexicon) == Some(Rules.WordUsedAlready)
  {
  }

  /** The root word itself is spellable and real, so it fails as a repeat. */
  lemma RootWordIsRepeated()
    ensures Rules.Validate("silkworm", "silkworm", [], Lexicon) == Some(Rules.RepeatedWord)
  {
    assert Spelling.Spellable("silkworm", "silkworm");
  }

  /** "silkworms" needs a second 's' and is not possible. */
  lemma SilkwormsIsNotPossible()
    ensures Rules.Validate("silkworms", "silkworm", [], Lexicon) == Some(Rules.WordNotPossible)
  {
    Spelling.SilkwormsIsNotSpellable();
  }

  /** "sk" passes every other guard and fails only on length. */
  lemma SkIsTooSmall()
    ensures Rules.Validate("sk", "silkworm", [], Lexicon) == Some(Rules.WordTooSmall)
  {
    Spelling.SkIsSpellable();
  }

  /** Whitespace alone leaves no answer, so the round is ignored. */
  lemma BlankIsIgnored()
    ensures Text.Normalize("  ") == []
  {
    Text.NormalizeEmptyIffBlank("  ");
  }

  /** A spellable word the lexicon does not know is "not recognized". */
  lemma MadeUpWordIsNotRecognized()
    ensures Rules.Validate("zzqx", "quizzax", [], Lexicon) == Some(Rules.WordNotRecognized)
  {
    Spelling.ZzqxIsSpellable();
  }

  /**
   * The bonus is read from the raw field: " silk" is stored as "silk" yet
   * earns 5 + 5, one more than "silk" typed without the space.
   */
  lemma BonusCountsRawInput()
    ensures Text.Normalize(" silk") == "silk"
    ensures Rules.Award(|" silk"|) == 10 && Rules.Award(|"silk"|) == 9
  {
    SpacedSilkIsSilk();
  }

  /** Typed as " silk", the answer is "silk". */
  lemma SpacedSilkIsSilk()
    ensures Text.Normalize(" silk") == "silk"
  {
    assert Text.Lowercased(" silk") == " silk";
    assert Text.TrimStart(" silk") == "silk";
    assert Text.TrimEnd("silk") == "silk";
  }

  /** A three-letter word is long enough: "ilk" is accepted and earns 5 + 3. */
  lemma ThreeLettersAreEnough()
    ensures Rules.Validate("ilk", "silkworm", ["silk"], Lexicon) == None
    ensures Rules.Award(|"ilk"|) == 8
  {
    Spelling.IlkIsSpellable();
  }
}
