/** The two Kotlin string operations the search filter relies on: `CharSequence.isBlank()` and
    `CharSequence.contains(other, ignoreCase = true)`. Characters are Unicode scalar values;
    case folding is restricted to the ASCII letters. */
module KotlinText {

  /** `Char.isWhitespace()` on the JVM: Java whitespace (tab, line feed, vertical tab, form feed,
      carriage return, the four information separators U+001C..U+001F) or a Unicode space
      separator (space, no-break space, ogham space mark, U+2000..U+200A, line and paragraph
      separators, narrow no-break space, medium mathematical space, ideographic space). */
  predicate IsWhitespace(c: char): (r: bool)
    ensures c == ' ' || c == '\t' || c == '\n' || c == '\r' ==> r
    ensures ('a' <= c <= 'z') || ('A' <= c <= 'Z') || ('0' <= c <= '9') ==> !r
  {
    ('\t' <= c <= '\r') || ('\U{1C}' <= c <= ' ') || c == '\U{A0}' || c == '\U{1680}'
    || ('\U{2000}' <= c <= '\U{200A}') || c == '\U{2028}' || c == '\U{2029}'
    || c == '\U{202F}' || c == '\U{205F}' || c == '\U{3000}'
  }

  /** `isBlank()`: the string is scanned from the front and is blank when it runs out without
      meeting a non-whitespace character; so it holds of the empty string and exactly of the
      strings that are all whitespace. */
  predicate IsBlank(s: string): (r: bool)
    ensures r <==> forall i :: 0 <= i < |s| ==> IsWhitespace(s[i])
  {
    s == [] || (IsWhitespace(s[0]) && IsBlank(s[1..]))
  }

  predicate IsAsciiUpper(c: char) {
    'A' <= c <= 'Z'
  }

  /** The case folding under which `ignoreCase = true` compares two characters: an ASCII
      capital letter stands for its lower-case letter, every other character for itself. */
  function FoldChar(c: char): (f: char)
    ensures !IsAsciiUpper(f)
    ensures f == c <==> !IsAsciiUpper(c)
    ensures IsAsciiUpper(c) ==> f as int == c as int + 32
    ensures IsWhitespace(f) <==> IsWhitespace(c)
  {
    if IsAsciiUpper(c) then (c as int + 32) as char else c
  }

  /** Two characters compare equal ignoring case exactly when they are equal, or one is an
      ASCII capital and the other its own lower-case letter. */
  lemma FoldCharEqualIff(c: char, d: char)
    ensures FoldChar(c) == FoldChar(d) <==>
              c == d || (IsAsciiUpper(c) && d as int == c as int + 32)
                     || (IsAsciiUpper(d) && c as int == d as int + 32)
  {
  }

  function FoldString(s: string): (r: string)
  {
    seq(|s|, i requires 0 <= i < |s| => FoldChar(s[i]))
  }

  /** `regionMatches(i, q, 0, q.length, ignoreCase = true)`: `q` occurs in `s` at offset `i`,
      character by character under `FoldChar`. */
  ghost predicate MatchesAt(s: string, i: int, q: string) {
    0 <= i && i + |q| <= |s| && forall k :: 0 <= k < |q| ==> FoldChar(s[i + k]) == FoldChar(q[k])
  }

  /** `s` starts with `q`, ignoring case. */
  predicate StartsWithIgnoreCase(s: string, q: string) {
    |q| <= |s| && FoldString(s[..|q|]) == FoldString(q)
  }

  /** `s.contains(q, ignoreCase = true)`: the `indexOf` scan tries every start offset from 0 to
      `|s| - |q|`; an empty `q` occurs at offset 0. */
  function ContainsIgnoreCase(s: string, q: string): (r: bool)
    ensures r ==> |q| <= |s|
    ensures q == [] ==> r
    decreases |s|
  {
    StartsWithIgnoreCase(s, q) || (|s| > |q| && ContainsIgnoreCase(s[1..], q))
  }

  lemma StartsWithIgnoreCaseAt(s: string, q: string)
    ensures StartsWithIgnoreCase(s, q) <==> MatchesAt(s, 0, q)
  {
    if |q| <= |s| {
      if MatchesAt(s, 0, q) {
        assert FoldString(s[..|q|]) == FoldString(q);
      }
      if StartsWithIgnoreCase(s, q) {
        forall k | 0 <= k < |q| ensures FoldChar(s[k]) == FoldChar(q[k]) {
          assert FoldString(s[..|q|])[k] == FoldString(q)[k];
        }
      }
    }
  }

  /** The scan finds `q` exactly when `q` occurs somewhere in `s`. */
  lemma {:induction false} ContainsIgnoreCaseIffOccurs(s: string, q: string)
    ensures ContainsIgnoreCase(s, q) <==> exists i :: MatchesAt(s, i, q)
    decreases |s|
  {
    StartsWithIgnoreCaseAt(s, q);
    if |s| > |q| {
      ContainsIgnoreCaseIffOccurs(s[1..], q);
      if ContainsIgnoreCase(s[1..], q) {
        var i :| MatchesAt(s[1..], i, q);
        assert MatchesAt(s, i + 1, q);
      }
      if i :| MatchesAt(s, i, q) {
        if i > 0 {
          assert MatchesAt(s[1..], i - 1, q);
        }
      }
    } else {
      if i :| MatchesAt(s, i, q) {
        assert i == 0;
      }
    }
  }

  /** Two queries with the same folding are the same query to `ContainsIgnoreCase`. */
  lemma {:induction false} ContainsIgnoreCaseFoldInvariant(s: string, q1: string, q2: string)
    requires FoldString(q1) == FoldString(q2)
    ensures ContainsIgnoreCase(s, q1) == ContainsIgnoreCase(s, q2)
    decreases |s|
  {
    assert |q1| == |FoldString(q1)| == |q2|;
    if |s| > |q1| {
      ContainsIgnoreCaseFoldInvariant(s[1..], q1, q2);
    }
  }

  /** Folding a query does not change whether it is blank. */
  lemma BlankFoldInvariant(q1: string, q2: string)
    requires FoldString(q1) == FoldString(q2)
    ensures IsBlank(q1) == IsBlank(q2)
  {
    assert |q1| == |FoldString(q1)| == |q2|;
    forall i | 0 <= i < |q1| ensures IsWhitespace(q1[i]) == IsWhitespace(q2[i]) {
      assert FoldString(q1)[i] == FoldString(q2)[i];
    }
  }

  /** A query with a character that, folded, occurs nowhere in `s` is not contained in `s`. */
  lemma AbsentCharNotContained(s: string, q: string, k: nat)
    requires k < |q| && forall i :: 0 <= i < |s| ==> FoldChar(s[i]) != FoldChar(q[k])
    ensures !ContainsIgnoreCase(s, q)
  {
    ContainsIgnoreCaseIffOccurs(s, q);
    forall i ensures !MatchesAt(s, i, q) {
      if 0 <= i && i + |q| <= |s| {
        assert FoldChar(s[i + k]) != FoldChar(q[k]);
      }
    }
  }

  /** An occurrence at a known offset makes `contains` true. */
  lemma OccursAtContained(s: string, q: string, i: int)
    requires MatchesAt(s, i, q)
    ensures ContainsIgnoreCase(s, q)
  {
    ContainsIgnoreCaseIffOccurs(s, q);
  }
}
