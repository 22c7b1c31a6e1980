/**
 * The validation chain of addNewWord and the scoring table: the five checks,
 * the order in which they run, the error each one reports and the points an
 * accepted word earns.
 */
module Rules {
  import opened Wrappers
  import Spelling

  /** The five reasons a non-empty answer is turned down, one per guard. */
  datatype Rejection = WordUsedAlready | WordNotPossible | WordNotRecognized | RepeatedWord | WordTooSmall

  /** The order in which addNewWord runs its guards. */
  const CheckOrder: seq<Rejection> :=
    [WordUsedAlready, WordNotPossible, WordNotRecognized, RepeatedWord, WordTooSmall]

  /** The alert title each rejection shows. */
  function Title(e: Rejection): string {
    match e
    case WordUsedAlready => "Word used already"
    case WordNotPossible => "Word not Possible"
    case WordNotRecognized => "Word not recognized"
    case RepeatedWord => "Repeated word"
    case WordTooSmall => "Word is too small"
  }

  /** The alert message each rejection shows; only one mentions the root word. */
  function Message(e: Rejection, root: string): string {
    match e
    case WordUsedAlready => "Be more original!"
    case WordNotPossible => "You can't spell that word from '" + root + "'"
    case WordNotRecognized => "You can't just make them up, you know!"
    case RepeatedWord => "This word is the same as the initial word!"
    case WordTooSmall => "You need to write a word longer than 3 characters!"
  }

  /** Every rejection has its own title, so the title tells which check failed. */
  lemma TitlesAreDistinct(e1: Rejection, e2: Rejection)
    requires e1 != e2
    ensures Title(e1) != Title(e2)
  {
    match e1
    case WordUsedAlready => assert Title(e1)[5] == 'u';
    case WordNotPossible => assert Title(e1)[9] == 'P';
    case WordNotRecognized => assert Title(e1)[9] == 'r';
    case RepeatedWord => assert Title(e1)[0] == 'R';
    case WordTooSmall => assert Title(e1)[5] == 'i';
  }

  /** isOriginal: the answer is not in the list of used words. */
  predicate IsOriginal(word: string, used: seq<string>) {
    !(word in used)
  }

  /** isEqual: despite its name, true when the answer differs from the root word. */
  predicate IsEqual(word: string, root: string) {
    if word != root then true else false
  }

  /** isTooSmall: despite its name, true when the answer is long enough. */
  predicate IsTooSmall(word: string) {
    if |word| < 3 then false else true
  }

  /** Whether `answer` passes the check that reports `e`. */
  function Passes(e: Rejection, answer: string, root: string, used: seq<string>, isReal: string -> bool): bool {
    match e
    case WordUsedAlready => IsOriginal(answer, used)
    case WordNotPossible => Spelling.Spellable(answer, root)
    case WordNotRecognized => isReal(answer)
    case RepeatedWord => IsEqual(answer, root)
    case WordTooSmall => IsTooSmall(answer)
  }

  /**
   * The guard chain of addNewWord on a non-empty answer: None when the word is
   * accepted, otherwise the rejection of the first guard that fails.
   */
  function Validate(answer: string, root: string, used: seq<string>, isReal: string -> bool): Option<Rejection> {
    if !IsOriginal(answer, used) then Some(WordUsedAlready)
    else if !Spelling.Spellable(answer, root) then Some(WordNotPossible)
    else if !isReal(answer) then Some(WordNotRecognized)
    else if !IsEqual(answer, root) then Some(RepeatedWord)
    else if !IsTooSmall(answer) then Some(WordTooSmall)
    else None
  }

  /**
   * What an accepted answer is guaranteed to be: unused, spellable from the
   * root, known to the lexicon, not the root itself and at least 3 long.
   */
  lemma AcceptedAnswerGuarantees(answer: string, root: string, used: seq<string>, isReal: string -> bool)
    requires Validate(answer, root, used, isReal) == None
    ensures forall i :: 0 <= i < |used| ==> used[i] != answer
    ensures Spelling.Spellable(answer, root) && isReal(answer)
    ensures answer != root && |answer| >= 3
  {
  }

  /** Reference reading of a short-circuiting chain: the first check in `checks` that fails. */
  function FirstFailing(checks: seq<Rejection>, answer: string, root: string, used: seq<string>, isReal: string -> bool): Option<Rejection> {
    if checks == [] then None
    else if !Passes(checks[0], answer, root, used, isReal) then Some(checks[0])
    else FirstFailing(checks[1..], answer, root, used, isReal)
  }

  lemma {:induction false} FirstFailingSpec(checks: seq<Rejection>, answer: string, root: string, used: seq<string>, isReal: string -> bool)
    ensures FirstFailing(checks, answer, root, used, isReal) == None
        <==> forall k :: 0 <= k < |checks| ==> Passes(checks[k], answer, root, used, isReal)
    ensures forall i :: (0 <= i < |checks| && !Passes(checks[i], answer, root, used, isReal)
                         && (forall k :: 0 <= k < i ==> Passes(checks[k], answer, root, used, isReal)))
                        ==> FirstFailing(checks, answer, root, used, isReal) == Some(checks[i])
    ensures FirstFailing(checks, answer, root, used, isReal).Some? ==>
        exists i :: 0 <= i < |checks| && checks[i] == FirstFailing(checks, answer, root, used, isReal).value
          && !Passes(checks[i], answer, root, used, isReal)
          && forall k :: 0 <= k < i ==> Passes(checks[k], answer, root, used, isReal)
  {
    if checks != [] && Passes(checks[0], answer, root, used, isReal) {
      var tail := checks[1..];
      FirstFailingSpec(tail, answer, root, used, isReal);
      forall i | 0 < i < |checks| ensures checks[i] == tail[i - 1] { }
      if FirstFailing(checks, answer, root, used, isReal).Some? {
        var j :| 0 <= j < |tail| && tail[j] == FirstFailing(tail, answer, root, used, isReal).value
          && !Passes(tail[j], answer, root, used, isReal)
          && forall k :: 0 <= k < j ==> Passes(tail[k], answer, root, used, isReal);
        assert checks[j + 1] == tail[j];
      }
    }
  }

  /** The guard chain is exactly "first failing check, in CheckOrder". */
  lemma ValidateFollowsCheckOrder(answer: string, root: string, used: seq<string>, isReal: string -> bool)
    ensures Validate(answer, root, used, isReal) == FirstFailing(CheckOrder, answer, root, used, isReal)
  {
    var tail4: seq<Rejection> := [WordTooSmall];
    var tail3 := [RepeatedWord] + tail4;
    var tail2 := [WordNotRecognized] + tail3;
    var tail1 := [WordNotPossible] + tail2;
    assert CheckOrder == [WordUsedAlready] + tail1;
    assert tail4[1..] == [];
    assert tail3[1..] == tail4 && tail2[1..] == tail3 && tail1[1..] == tail2 && CheckOrder[1..] == tail1;
    assert FirstFailing(tail4[1..], answer, root, used, isReal) == None;
    var r4 := FirstFailing(tail4, answer, root, used, isReal);
    assert r4 == if !IsTooSmall(answer) then Some(WordTooSmall) else None;
    var r3 := FirstFailing(tail3, answer, root, used, isReal);
    assert r3 == if !IsEqual(answer, root) then Some(RepeatedWord) else r4;
    var r2 := FirstFailing(tail2, answer, root, used, isReal);
    assert r2 == if !isReal(answer) then Some(WordNotRecognized) else r3;
    var r1 := FirstFailing(tail1, answer, root, used, isReal);
    assert r1 == if !Spelling.Spellable(answer, root) then Some(WordNotPossible) else r2;
    assert FirstFailing(CheckOrder, answer, root, used, isReal)
        == if !IsOriginal(answer, used) then Some(WordUsedAlready) else r1;
  }

  /**
   * When several checks would fail, the rejection reported is that of the
   * first one in CheckOrder; the word is accepted exactly when all pass.
   */
  lemma ValidateReportsFirstFailure(answer: string, root: string, used: seq<string>, isReal: string -> bool, i: nat)
    requires i < |CheckOrder|
    ensures Validate(answer, root, used, isReal) == None
        <==> forall k :: 0 <= k < |CheckOrder| ==> Passes(CheckOrder[k], answer, root, used, isReal)
    ensures Validate(answer, root, used, isReal) == Some(CheckOrder[i])
        <==> (!Passes(CheckOrder[i], answer, root, used, isReal)
              && forall k :: 0 <= k < i ==> Passes(CheckOrder[k], answer, root, used, isReal))
  {
    ValidateFollowsCheckOrder(answer, root, used, isReal);
    FirstFailingSpec(CheckOrder, answer, root, used, isReal);
  }

  /** The length bonus of the `switch newWord.utf16.count` table. */
  function LengthBonus(n: nat): (r: nat)
    ensures 3 <= n <= 7 ==> r == n
    ensures n < 3 || n > 7 ==> r == 0
  {
    match n
    case 3 => 3
    case 4 => 4
    case 5 => 5
    case 6 => 6
    case 7 => 7
    case _ => 0
  }

  /** Points an accepted word earns: 5, plus the bonus for the raw input's length. */
  function Award(rawLength: nat): (r: nat)
    ensures 5 <= r <= 12
    ensures r == 5 || 8 <= r
  {
    5 + LengthBonus(rawLength)
  }

  /** Where the list of start words yields none, "silkworm" is the root. */
  const DefaultRoot: string := "silkworm"

  /**
   * `allWords.randomElement() ?? "silkworm"`, with the random draw `draw`
   * passed in.
   */
  function PickRoot(allWords: seq<string>, draw: nat): (r: string)
    requires allWords != [] ==> draw < |allWords|
    ensures allWords != [] ==> r in allWords
    ensures allWords == [] ==> r == DefaultRoot
  {
    if allWords == [] then DefaultRoot else allWords[draw]
  }
}
