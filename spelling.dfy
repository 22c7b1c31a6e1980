/**
 * The spellability check `isPossible`: every letter of the candidate must be
 * taken from the root word, each letter of the root at most once.
 */
module Spelling {
  import opened Wrappers

  /** The specification: the candidate's letters form a sub-multiset of the root's. */
  predicate Spellable(word: string, root: string) {
    multiset(word) <= multiset(root)
  }

  /** Swift's `firstIndex(of:)`: the position of the first occurrence of `c`. */
  function FirstIndex(s: string, c: char): (r: Option<nat>)
    ensures r.None? <==> c !in s
    ensures r.Some? ==> r.value < |s| && s[r.value] == c && c !in s[..r.value]
  {
    if s == [] then None
    else if s[0] == c then Some(0)
    else match FirstIndex(s[1..], c)
      case None => None
      case Some(i) =>
        assert s[..i + 1] == [s[0]] + s[1..][..i];
        Some(i + 1)
  }

  /** Swift's `remove(at:)`: exactly one occurrence of `s[pos]` leaves the string. */
  function Remove(s: string, pos: nat): (r: string)
    requires pos < |s|
    ensures |r| == |s| - 1
    ensures multiset(r) == multiset(s) - multiset{s[pos]}
  {
    assert s == s[..pos] + [s[pos]] + s[pos + 1..];
    s[..pos] + s[pos + 1..]
  }

  /** Taking a letter the remaining copy still holds keeps the accounting exact. */
  lemma TakeLetter(root: multiset<char>, used: multiset<char>, rest: multiset<char>, c: char)
    requires used <= root && rest == root - used && c in rest
    ensures used + multiset{c} <= root
    ensures rest - multiset{c} == root - (used + multiset{c})
  {
    assert root[c] >= used[c] + 1;
    forall x ensures (rest - multiset{c})[x] == (root - (used + multiset{c}))[x] {
    }
  }

  /**
   * A letter that the remaining copy of the root no longer holds makes the
   * whole word unspellable.
   */
  lemma MissingLetterIsNotSpellable(word: string, root: string, i: nat, rest: multiset<char>)
    requires i < |word|
    requires multiset(word[..i]) <= multiset(root)
    requires rest == multiset(root) - multiset(word[..i])
    requires word[i] !in rest
    ensures !Spellable(word, root)
  {
    var c := word[i];
    assert word == word[..i] + [c] + word[i + 1..];
    assert multiset(word)[c] >= multiset(word[..i])[c] + 1;
  }

  /**
   * isPossible: a copy of the root loses one matching letter per letter of
   * the candidate; the first letter not found ends the loop with `false`.
   */
  method IsPossible(word: string, root: string) returns (possible: bool)
    ensures possible <==> Spellable(word, root)
  {
    var tempWord := root;
    for i := 0 to |word|
      invariant multiset(word[..i]) <= multiset(root)
      invariant multiset(tempWord) == multiset(root) - multiset(word[..i])
    {
      var letter := word[i];
      assert word[..i + 1] == word[..i] + [letter];
      match FirstIndex(tempWord, letter)
      case Some(pos) =>
        TakeLetter(multiset(root), multiset(word[..i]), multiset(tempWord), letter);
        tempWord := Remove(tempWord, pos);
      case None =>
        MissingLetterIsNotSpellable(word, root, i, multiset(tempWord));
        return false;
    }
    assert word[..|word|] == word;
    return true;
  }

  /** "silk" can be spelled from "silkworm". */
  lemma SilkIsSpellable()
    ensures Spellable("silk", "silkworm")
  {
    var m := multiset("silkworm");
    assert m['s'] == 1 && m['i'] == 1 && m['l'] == 1 && m['k'] == 1;
  }

  /** "ilk" can be spelled from "silkworm". */
  lemma IlkIsSpellable()
    ensures Spellable("ilk", "silkworm")
  {
    var m := multiset("silkworm");
    assert m['i'] == 1 && m['l'] == 1 && m['k'] == 1;
  }

  /** "sk" can be spelled from "silkworm". */
  lemma SkIsSpellable()
    ensures Spellable("sk", "silkworm")
  {
    var m := multiset("silkworm");
    assert m['s'] == 1 && m['k'] == 1;
  }

  /** "zzqx" can be spelled from "quizzax". */
  lemma ZzqxIsSpellable()
    ensures Spellable("zzqx", "quizzax")
  {
    var m := multiset("quizzax");
    assert m['z'] == 2 && m['q'] == 1 && m['x'] == 1;
  }

  /** "silkworms" needs a second 's' that "silkworm" does not have. */
  lemma SilkwormsIsNotSpellable()
    ensures !Spellable("silkworms", "silkworm")
  {
    assert multiset("silkworms")['s'] == 2;
    assert multiset("silkworm")['s'] == 1;
  }
}
