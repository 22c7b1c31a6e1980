/**
 * Normalisation of the player's raw input: `lowercased()` followed by
 * `trimmingCharacters(in: .whitespacesAndNewlines)`.  Lowercasing is modelled
 * on ASCII letters and the whitespace set is a fixed list of characters.
 */
module Text {

  /** The characters that trimming strips from both ends. */
  predicate IsWhitespace(c: char) {
    c == ' ' || c == '\t' || c == '\n' || c == '\r' || c == '\U{B}' || c == '\U{C}'
    || c == '\U{85}' || c == '\U{A0}' || c == '\U{2028}' || c == '\U{2029}'
  }

  predicate IsUpper(c: char) {
    'A' <= c <= 'Z'
  }

  /** A string with no upper-case letter left in it. */
  predicate IsLowered(s: string) {
    forall i :: 0 <= i < |s| ==> !IsUpper(s[i])
  }

  /** A string that is empty or starts and ends with a non-whitespace character. */
  predicate IsTrimmed(s: string) {
    s == [] || (!IsWhitespace(s[0]) && !IsWhitespace(s[|s| - 1]))
  }

  predicate IsBlank(s: string) {
    forall i :: 0 <= i < |s| ==> IsWhitespace(s[i])
  }

  function Lower(c: char): (r: char)
    ensures !IsUpper(r)
    ensures IsUpper(c) || r == c
    ensures IsWhitespace(r) <==> IsWhitespace(c)
  {
    if IsUpper(c) then (c as int - 'A' as int + 'a' as int) as char else c
  }

  /** Swift's `lowercased()`, letter by letter. */
  function Lowercased(s: string): (r: string)
    ensures |r| == |s|
    ensures forall i :: 0 <= i < |s| ==> r[i] == Lower(s[i])
    ensures IsLowered(r)
  {
    if s == [] then [] else [Lower(s[0])] + Lowercased(s[1..])
  }

  /** Drops the leading whitespace: what is left is a suffix of `s`. */
  function TrimStart(s: string): (r: string)
    ensures |r| <= |s| && r == s[|s| - |r|..]
    ensures forall k :: 0 <= k < |s| - |r| ==> IsWhitespace(s[k])
    ensures r != [] ==> !IsWhitespace(r[0])
  {
    if s != [] && IsWhitespace(s[0]) then TrimStart(s[1..]) else s
  }

  /** Drops the trailing whitespace: what is left is a prefix of `s`. */
  function TrimEnd(s: string): (r: string)
    ensures |r| <= |s| && r == s[..|r|]
    ensures forall k :: |r| <= k < |s| ==> IsWhitespace(s[k])
    ensures r != [] ==> !IsWhitespace(r[|r| - 1])
  {
    if s != [] && IsWhitespace(s[|s| - 1]) then TrimEnd(s[..|s| - 1]) else s
  }

  /** `trimmingCharacters(in: .whitespacesAndNewlines)`. */
  function Trim(s: string): (r: string)
    ensures |r| <= |s|
    ensures IsTrimmed(r)
  {
    TrimEnd(TrimStart(s))
  }

  /** The `answer` that addNewWord derives from the text field. */
  function Normalize(raw: string): (r: string)
    ensures |r| <= |raw|
    ensures IsLowered(r) && IsTrimmed(r)
  {
    var t := Trim(Lowercased(raw));
    TrimmedSliceIsLowered(Lowercased(raw));
    t
  }

  lemma TrimmedSliceIsLowered(s: string)
    requires IsLowered(s)
    ensures IsLowered(Trim(s))
  {
    var u := TrimStart(s);
    assert IsLowered(u) by {
      forall i | 0 <= i < |u| ensures !IsUpper(u[i]) {
        assert u[i] == s[|s| - |u| + i];
      }
    }
  }

  lemma LoweredIsFixed(s: string)
    requires IsLowered(s)
    ensures Lowercased(s) == s
  {
  }

  lemma {:induction false} TrimStartOfBlank(s: string)
    ensures TrimStart(s) == [] <==> IsBlank(s)
  {
    if s != [] && IsWhitespace(s[0]) {
      TrimStartOfBlank(s[1..]);
      assert IsBlank(s) <==> IsBlank(s[1..]) by {
        assert forall i :: 0 < i < |s| ==> s[i] == s[1..][i - 1];
      }
    }
  }

  /** Trimming twice is trimming once. */
  lemma TrimIdempotent(s: string)
    ensures Trim(Trim(s)) == Trim(s)
  {
    var t := Trim(s);
    assert TrimStart(t) == t;
    assert TrimEnd(t) == t;
  }

  /** Normalising an answer again leaves it as it is. */
  lemma NormalizeIdempotent(raw: string)
    ensures Normalize(Normalize(raw)) == Normalize(raw)
  {
    var n := Normalize(raw);
    LoweredIsFixed(n);
    TrimIdempotent(Lowercased(raw));
  }

  /** The guard `answer.count > 0` fails exactly for blank input. */
  lemma {:induction false} NormalizeEmptyIffBlank(raw: string)
    ensures Normalize(raw) == [] <==> IsBlank(raw)
  {
    var l := Lowercased(raw);
    TrimStartOfBlank(l);
    assert IsBlank(l) <==> IsBlank(raw);
    var u := TrimStart(l);
    assert TrimEnd(u) == [] <==> u == [] by {
      if u != [] {
        assert !IsWhitespace(u[0]);
      }
    }
  }

  lemma {:induction false} TrimStartOfPadded(pre: string, s: string)
    requires IsBlank(pre)
    ensures TrimStart(pre + s) == TrimStart(s)
  {
    if pre == [] {
      assert pre + s == s;
    } else {
      assert (pre + s)[0] == pre[0];
      assert (pre + s)[1..] == pre[1..] + s;
      TrimStartOfPadded(pre[1..], s);
    }
  }

  lemma {:induction false} TrimEndOfPadded(s: string, post: string)
    requires IsBlank(post)
    ensures TrimEnd(s + post) == TrimEnd(s)
  {
    if post == [] {
      assert s + post == s;
    } else {
      var p := post[..|post| - 1];
      assert (s + post)[|s + post| - 1] == post[|post| - 1];
      assert (s + post)[..|s + post| - 1] == s + p;
      TrimEndOfPadded(s, p);
    }
  }

  lemma {:induction false} TrimStartOfAppend(s: string, t: string)
    ensures TrimStart(s + t) == if TrimStart(s) == [] then TrimStart(t) else TrimStart(s) + t
  {
    if s == [] {
      assert s + t == t;
    } else if IsWhitespace(s[0]) {
      assert (s + t)[1..] == s[1..] + t;
      TrimStartOfAppend(s[1..], t);
    }
  }

  lemma {:induction false} LowercasedAppend(a: string, b: string)
    ensures Lowercased(a + b) == Lowercased(a) + Lowercased(b)
  {
    if a == [] {
      assert a + b == b;
    } else {
      assert (a + b)[0] == a[0] && (a + b)[1..] == a[1..] + b;
      LowercasedAppend(a[1..], b);
    }
  }

  lemma BlankIsFixed(s: string)
    requires IsBlank(s)
    ensures Lowercased(s) == s
  {
    forall i | 0 <= i < |s| ensures Lowercased(s)[i] == s[i] {
      assert !IsUpper(s[i]);
    }
  }

  /**
   * Surrounding whitespace never changes the answer: "  silk\n" and "silk"
   * normalise alike.
   */
  lemma NormalizeIgnoresPadding(pre: string, s: string, post: string)
    requires IsBlank(pre) && IsBlank(post)
    ensures Normalize(pre + s + post) == Normalize(s)
  {
    var l := Lowercased(s);
    LowercasedOfPadded(pre, s, post);
    TrimOfPadded(pre, l, post);
  }

  lemma LowercasedOfPadded(pre: string, s: string, post: string)
    requires IsBlank(pre) && IsBlank(post)
    ensures Lowercased(pre + s + post) == pre + Lowercased(s) + post
  {
    LowercasedAppend(pre + s, post);
    LowercasedAppend(pre, s);
    BlankIsFixed(pre);
    BlankIsFixed(post);
  }

  lemma TrimOfPadded(pre: string, l: string, post: string)
    requires IsBlank(pre) && IsBlank(post)
    ensures Trim(pre + l + post) == Trim(l)
  {
    assert pre + l + post == pre + (l + post);
    TrimStartOfPadded(pre, l + post);
    TrimStartOfAppend(l, post);
    if TrimStart(l) == [] {
      TrimStartOfBlank(post);
    } else {
      TrimEndOfPadded(TrimStart(l), post);
    }
  }

  /** An already lower-case, trimmed word is its own answer. */
  lemma NormalizeKeepsClean(w: string)
    requires IsLowered(w) && IsTrimmed(w)
    ensures Normalize(w) == w
  {
    LoweredIsFixed(w);
    assert TrimStart(w) == w;
  }

  /** Letter case never changes the answer: "Silk" and "silk" normalise alike. */
  lemma NormalizeIgnoresCase(raw: string)
    ensures Normalize(Lowercased(raw)) == Normalize(raw)
  {
    LoweredIsFixed(Lowercased(raw));
  }
}
