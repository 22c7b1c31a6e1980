# WordScramble word-validation and scoring engine, in Dafny

WordScramble is a single-player word game. A root word is chosen, and the
player types words that must be spelled from the root's letters. Each word
goes through a fixed chain of checks, and an accepted word is added to the
history and scored. All of this logic lives in `ContentView`. This project
models it.

- `Text` (text.dfy): how `addNewWord` turns the raw text field into the
  `answer`: lower-case it, then trim surrounding whitespace. Proved: the
  result is clean, normalising twice changes nothing, the answer is empty
  exactly for blank input, and padding or letter case do not change it.
- `Spelling` (spelling.dfy): `isPossible`, the letter-consumption loop. A
  copy of the root loses one matching letter per letter of the candidate,
  using `firstIndex(of:)` and `remove(at:)`. It is written as a method with
  loop invariants and proved to hold exactly when the candidate's multiset of
  letters is contained in the root's.
- `Rules` (rules.dfy): the five checks (`isOriginal`, `isPossible`, `isReal`,
  `isEqual`, `isTooSmall`), the alert title and message of each, the guard
  chain `Validate`, and the `5 + length bonus` award. `Validate` is proved to
  agree with an independent reading, "the first check in `CheckOrder` that
  fails".
- `WordGame` (session.dfy): the class `Session`, holding the `@State` fields
  `rootWord`, `usedWords` (most recent first), `newWord`, `errorTitle`,
  `errorMessage`, `showError` and `score`. A ghost list `awards` records the
  points each word earned. `Valid()` is the invariant kept by every
  operation: no duplicates, every word normalised, at least 3 long and known
  to the lexicon, and `score` equal to the sum of the awards. A separate
  `AgreesWithRoot()` says that every used word is spelled from the current
  root and differs from it.
- `Scenarios` (scenarios.dfy): example rounds, mostly against the root
  "silkworm". The not-recognized round uses the root "quizzax" and a
  stand-in lexicon that rejects only "zzqx". All are stated on the functions
  that `AddNewWord`'s contract uses.

The dictionary lookup `isReal` is a `string -> bool` given to the session
when it is built. Root-word selection takes the list of start words and the
random draw as parameters.

Behaviour the model keeps as the code has it:

- The length bonus is read from the raw `newWord.utf16.count`, not from the
  answer. So `" silk"` is stored as `"silk"` but earns 5 + 5
  (`Scenarios.BonusCountsRawInput`). The minimum-length check, by contrast,
  counts the answer.
- A word of exactly 3 letters is accepted and earns the bonus 3. The alert
  text nevertheless says "longer than 3 characters".
- The `usedWords.count == 1` branch sets the score to 5 rather than adding 5.
  This is the same thing, because an empty history always has score 0
  (`WordGame.ScoreOfValidHistory`).
- `startGame` replaces only the root word and keeps the history and score.
  For that reason the root-dependent facts are kept in `AgreesWithRoot()`
  and are only guaranteed after `StartGame` when the history is empty (as it
  is when the view first appears). `restartGame` clears everything, so it
  always establishes both invariants.
- Any root is allowed, including an empty one (a blank line of the start
  list). The `"silkworm"` fallback of `randomElement() ?? "silkworm"`
  (ContentView.swift:67, 136) can never run in the source:
  `components(separatedBy: "\n")` never returns an empty array, and an empty
  start.txt gives `[""]`, so the root becomes "". `Rules.PickRoot` keeps the
  `allWords == []` branch only to mirror the `??`; no caller in the source
  reaches it.
- The three guards `isOriginal`, `isEqual` and `isTooSmall` are plain
  predicates with the source's expressions. What they guarantee is stated
  by `Rules.AcceptedAnswerGuarantees` (an accepted answer is unused,
  differs from the root and is at least 3 long),
  `WordGame.OriginalKeepsNoDuplicates` and `Rules.ValidateReportsFirstFailure`.
- Rejecting a word changes only the three error fields. Submitting the same
  text again therefore runs the same checks on the same state and gives the
  same alert.

## Model

| member | source | states |
|---|---|---|
| Text.Lowercased | WordScramble/ContentView.swift:76 | `lowercased()`: same length, each character lowered, no upper-case letter left |
| Text.TrimStart | WordScramble/ContentView.swift:76 | the result is a suffix of the input, everything dropped is whitespace, and it does not start with whitespace |
| Text.TrimEnd | WordScramble/ContentView.swift:76 | the result is a prefix of the input, everything dropped is whitespace, and it does not end with whitespace |
| Text.Trim | WordScramble/ContentView.swift:76 | trimming gives a string with no whitespace at either end, never longer than the input |
| Text.Normalize | WordScramble/ContentView.swift:76 | the answer is lower-case, trimmed and never longer than the raw input |
| Text.TrimIdempotent | WordScramble/ContentView.swift:76 | trimming twice equals trimming once |
| Text.NormalizeIdempotent | WordScramble/ContentView.swift:76 | normalising an answer again leaves it unchanged |
| Text.NormalizeKeepsClean | WordScramble/ContentView.swift:76 | a lower-case, trimmed word is its own answer |
| Text.NormalizeEmptyIffBlank | WordScramble/ContentView.swift:76-77 | the `answer.count > 0` guard fails exactly when the raw input is all whitespace |
| Text.NormalizeIgnoresPadding | WordScramble/ContentView.swift:76 | surrounding whitespace does not change the answer |
| Text.NormalizeIgnoresCase | WordScramble/ContentView.swift:76 | letter case does not change the answer |
| Spelling.FirstIndex | WordScramble/ContentView.swift:164 | `firstIndex(of:)`: None exactly when the letter is absent, otherwise the position of its first occurrence |
| Spelling.Remove | WordScramble/ContentView.swift:165 | `remove(at:)` removes exactly one occurrence of that letter from the multiset |
| Spelling.TakeLetter | WordScramble/ContentView.swift:163-165 | removing a letter that is still available keeps the copy equal to root minus the consumed prefix |
| Spelling.MissingLetterIsNotSpellable | WordScramble/ContentView.swift:166-167 | a letter missing from the remaining copy makes the whole word unspellable, so the early `return false` is right |
| Spelling.IsPossible | WordScramble/ContentView.swift:160-172 | the consumption loop returns true exactly when the word's letter multiset is contained in the root's |
| Spelling.SilkIsSpellable | WordScramble/ContentView.swift:160-172 | "silk" is spellable from "silkworm" |
| Spelling.SilkwormsIsNotSpellable | WordScramble/ContentView.swift:160-172 | "silkworms" is not spellable from "silkworm" (only one 's') |
| Rules.TitlesAreDistinct | WordScramble/ContentView.swift:79-101 | each of the five guards shows a different alert title |
| Rules.AcceptedAnswerGuarantees | WordScramble/ContentView.swift:79-102 | an answer the guard chain accepts is not among the used words, is spellable from the root, is known to the lexicon, differs from the root and has at least 3 characters |
| Rules.FirstFailingSpec | WordScramble/ContentView.swift:79-102 | the reference chain reports no failure exactly when all checks pass, and otherwise reports the earliest failing check |
| Rules.ValidateFollowsCheckOrder | WordScramble/ContentView.swift:79-102 | the guard chain equals "first failing check" over the order used already, not possible, not recognized, same as root, too small |
| Rules.ValidateReportsFirstFailure | WordScramble/ContentView.swift:79-102 | acceptance exactly when all five checks pass; a rejection names check i exactly when i fails and every earlier one passes |
| Rules.LengthBonus | WordScramble/ContentView.swift:114-127 | the bonus is n for lengths 3 to 7 and 0 otherwise |
| Rules.Award | WordScramble/ContentView.swift:108-127 | an accepted word earns 5, or between 8 and 12 |
| Rules.PickRoot | WordScramble/ContentView.swift:67 | the root is an element of the start list, or "silkworm" when the list is empty |
| WordGame.SumOfAwards | WordScramble/ContentView.swift:108-127 | with at least 5 per word the total is at least 5 per word, and it is 0 only for no words |
| WordGame.ScoreOfValidHistory | WordScramble/ContentView.swift:108-112 | in a valid session the score is 0 exactly when the history is empty, so `score = 5` equals `score += 5` |
| WordGame.OriginalKeepsNoDuplicates | WordScramble/ContentView.swift:79-82 | an answer that passes `isOriginal`, inserted in front of a list without duplicates, leaves a list without duplicates |
| WordGame.PrependKeepsHistoryValid | WordScramble/ContentView.swift:105-127 | inserting a new acceptable word at index 0 with its award keeps the history free of duplicates and the score equal to the sum of awards |
| WordGame.PrependKeepsAllFromRoot | WordScramble/ContentView.swift:84-105 | inserting a word spelled from the root and different from it keeps every used word agreeing with the root |
| WordGame.ResubmissionIsUsedAlready | WordScramble/ContentView.swift:76-82 | input that differs from an accepted word's input only in case and padding is rejected as "Word used already" |
| WordGame.Session.constructor | WordScramble/ContentView.swift:11-19 | the initial state: empty root, history, input and alert, score 0; both invariants hold |
| WordGame.Session.Type | WordScramble/ContentView.swift:25 | the text field's binding sets `newWord` |
| WordGame.Session.WordError | WordScramble/ContentView.swift:182-186 | sets the alert title and message and raises `showError` |
| WordGame.Session.StartGame | WordScramble/ContentView.swift:132-142 | sets only the root word, to the drawn start word or "silkworm"; the history invariant is kept |
| WordGame.Session.RestartGame | WordScramble/ContentView.swift:59-73 | empties the history, clears the input, zeroes the score, sets the root and establishes both invariants |
| WordGame.Session.AddNewWord | WordScramble/ContentView.swift:75-130 | blank answer: nothing changes. First failing guard: only its title, message and `showError` are set. Acceptance: the answer is inserted at index 0, the score rises by 5 plus the raw-length bonus and the field clears. The invariants hold and the score never decreases |
| WordGame.Session.RecordAnswer | WordScramble/ContentView.swift:104-129 | the acceptance step: insert at index 0, add 5 (or set 5 on an empty history) plus the bonus, clear `newWord`, keep both invariants |
| Scenarios.SilkIsAccepted | WordScramble/ContentView.swift:79-127 | root "silkworm": "silk" passes every guard and earns 9 |
| Scenarios.SilkIsClean | WordScramble/ContentView.swift:76 | typed "silk" gives the answer "silk" |
| Scenarios.SilkAgainIsUsedAlready | WordScramble/ContentView.swift:79-82 | with "silk" used, "silk" is rejected as used already |
| Scenarios.RootWordIsRepeated | WordScramble/ContentView.swift:94-97 | "silkworm" against root "silkworm" is rejected as a repeated word |
| Scenarios.SilkwormsIsNotPossible | WordScramble/ContentView.swift:84-87 | "silkworms" against root "silkworm" is rejected as not possible |
| Scenarios.SkIsTooSmall | WordScramble/ContentView.swift:99-102 | "sk" passes the other guards and is rejected as too small |
| Scenarios.BlankIsIgnored | WordScramble/ContentView.swift:76-77 | whitespace-only input gives an empty answer |
| Scenarios.MadeUpWordIsNotRecognized | WordScramble/ContentView.swift:89-92 | a spellable word the lexicon does not know is rejected as not recognized |
| Scenarios.BonusCountsRawInput | WordScramble/ContentView.swift:114 | " silk" is stored as "silk" but earns 10, not 9 |
| Scenarios.SpacedSilkIsSilk | WordScramble/ContentView.swift:76 | typed " silk" gives the answer "silk" |
| Scenarios.ThreeLettersAreEnough | WordScramble/ContentView.swift:99-127 | "ilk" is accepted and earns 8 |

## Left out

- The SwiftUI `body`, `withAnimation`, alert presentation and the alert's OK button, which resets `showError` through its binding (ContentView.swift:21-57, 104): these are user interface.
- Loading `start.txt` from the bundle, splitting it on newlines, `randomElement()` and `fatalError` (ContentView.swift:64-72, 133-141): these are I/O and randomness. `StartGame` and `RestartGame` take the list and the drawn index instead, and the missing-file abort is not modelled.
- `UITextChecker` inside `isReal` (ContentView.swift:174-180) is a platform lexicon. It is the injected function `Session.isReal`.
- Text.Lowercased: lowers only the ASCII letters A to Z, because Unicode case mapping is not modelled.
- Text.IsWhitespace: a fixed list of ten whitespace and newline characters stands in for `.whitespacesAndNewlines`.
- Characters versus UTF-16 units: one Dafny `char` is one unit everywhere. The source iterates Characters in `isPossible` and `answer.count` but counts UTF-16 units in `isTooSmall` and the bonus. For non-ASCII input those counts can differ, and the model does not show that difference. Swift also compares `String` and `Character` values by canonical equivalence: a precomposed "é" equals "e" followed by U+0301. This affects `usedWords.contains` (:157), `word != rootWord` (:149) and `firstIndex(of:)` (:164). The model compares code points, so those two spellings differ in it.
- Swift `Int` overflow of `score` is not modelled. The score is an unbounded integer.
- `ContentView_Previews` (ContentView.swift:189-193) is preview plumbing.
