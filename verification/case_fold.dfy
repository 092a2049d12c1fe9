/**
  Ordinal, case-insensitive string comparison (.NET `StringComparison.OrdinalIgnoreCase`),
  restricted to the ASCII letters: each character is mapped to its upper-case form and the
  resulting code points are compared one by one. Characters outside `a`..`z` compare exactly.
 */
module CaseFold {

  /** Upper-case form of one character; only the ASCII letters `a`..`z` change. */
  function FoldChar(c: char): (u: char)
    ensures 'a' <= c <= 'z' ==> u as int == c as int - 32
    ensures !('a' <= c <= 'z') ==> u == c
    ensures !('a' <= u <= 'z')
  {
    if 'a' <= c <= 'z' then (c as int - 32) as char else c
  }

  /** No character of `s` is a lower-case ASCII letter. */
  predicate NoLowerAscii(s: string)
  {
    forall i :: 0 <= i < |s| ==> !('a' <= s[i] <= 'z')
  }

  /**
    The upper-case representative of `s`: equal to `s` ignoring case and free of lower-case
    ASCII letters (`FoldIsCanonical` shows it is the only such string).
   */
  function Fold(s: string): (t: string)
    ensures EqualsIgnoreCase(s, t)
    ensures NoLowerAscii(t)
  {
    seq(|s|, i requires 0 <= i < |s| => FoldChar(s[i]))
  }

  /** Reference definition: same length, and equal code points after folding at every position. */
  predicate EqualsIgnoreCase(a: string, b: string)
  {
    |a| == |b| && forall i :: 0 <= i < |a| ==> FoldChar(a[i]) == FoldChar(b[i])
  }

  /** Two strings are equal ignoring case exactly when their folds are equal. */
  lemma EqualsIgnoreCaseIffFoldsEqual(a: string, b: string)
    ensures EqualsIgnoreCase(a, b) <==> Fold(a) == Fold(b)
  {
    if Fold(a) == Fold(b) {
      assert |a| == |b|;
      forall i | 0 <= i < |a|
        ensures FoldChar(a[i]) == FoldChar(b[i])
      {
        assert Fold(a)[i] == Fold(b)[i];
      }
    }
  }

  /** A string equal to `s` ignoring case and free of lower-case ASCII letters is `s`'s fold. */
  lemma FoldIsCanonical(s: string, t: string)
    requires EqualsIgnoreCase(s, t) && NoLowerAscii(t)
    ensures t == Fold(s)
  {
    forall i | 0 <= i < |t|
      ensures t[i] == Fold(s)[i]
    {
      assert FoldChar(t[i]) == t[i];
      assert Fold(s)[i] == FoldChar(s[i]);
    }
  }

  /** Comparison ignoring case is an equivalence relation. */
  lemma EqualsIgnoreCaseIsEquivalence(a: string, b: string, c: string)
    ensures EqualsIgnoreCase(a, a)
    ensures EqualsIgnoreCase(a, b) ==> EqualsIgnoreCase(b, a)
    ensures EqualsIgnoreCase(a, b) && EqualsIgnoreCase(b, c) ==> EqualsIgnoreCase(a, c)
  {
  }
}
