/** Character classes and the case-insensitive string comparison the route table is sorted by. */
module Text {

  /** `\w` of java.util.regex without UNICODE_CHARACTER_CLASS: `[a-zA-Z_0-9]`. */
  predicate IsWordChar(c: char) {
    ('a' <= c <= 'z') || ('A' <= c <= 'Z') || ('0' <= c <= '9') || c == '_'
  }

  /** Character.toUpperCase, restricted to the ASCII letters. */
  function ToUpper(c: char): char {
    if 'a' <= c <= 'z' then (c as int - 32) as char else c
  }

  /** Character.toLowerCase, restricted to the ASCII letters. */
  function ToLower(c: char): char {
    if 'A' <= c <= 'Z' then (c as int + 32) as char else c
  }

  /** The key a character is compared by: lower case of upper case. */
  function Fold(c: char): char {
    ToLower(ToUpper(c))
  }

  /** The folded form of a whole string. */
  function FoldAll(s: string): (f: string)
    ensures |f| == |s|
    ensures forall i :: 0 <= i < |s| ==> f[i] == Fold(s[i])
  {
    if |s| == 0 then [] else [Fold(s[0])] + FoldAll(s[1..])
  }

  /**
   * One step of String.compareToIgnoreCase: equal characters are equal; otherwise
   * both are upper-cased, and if still different both are lower-cased and subtracted.
   */
  function CharCompareIgnoreCase(c1: char, c2: char): (d: int)
    ensures d == Fold(c1) as int - Fold(c2) as int
  {
    if c1 == c2 then 0
    else if ToUpper(c1) == ToUpper(c2) then 0
    else if ToLower(ToUpper(c1)) == ToLower(ToUpper(c2)) then 0
    else ToLower(ToUpper(c1)) as int - ToLower(ToUpper(c2)) as int
  }

  /**
   * String.compareToIgnoreCase: the difference of the first pair of characters that
   * differ ignoring case, or else the difference of the lengths.
   */
  function CompareIgnoreCase(a: string, b: string): int {
    if |a| == 0 || |b| == 0 then |a| - |b|
    else if CharCompareIgnoreCase(a[0], b[0]) != 0 then CharCompareIgnoreCase(a[0], b[0])
    else CompareIgnoreCase(a[1..], b[1..])
  }

  /** Swapping the operands negates the result. */
  lemma {:induction false} CompareAntisymmetric(a: string, b: string)
    ensures CompareIgnoreCase(a, b) == -CompareIgnoreCase(b, a)
  {
    if |a| > 0 && |b| > 0 && CharCompareIgnoreCase(a[0], b[0]) == 0 {
      CompareAntisymmetric(a[1..], b[1..]);
    }
  }

  /** Two strings compare equal exactly when their folded forms are the same string. */
  lemma {:induction false} CompareZeroIff(a: string, b: string)
    ensures CompareIgnoreCase(a, b) == 0 <==> FoldAll(a) == FoldAll(b)
  {
    if |a| > 0 && |b| > 0 {
      CompareZeroIff(a[1..], b[1..]);
      assert FoldAll(a) == [Fold(a[0])] + FoldAll(a[1..]);
      assert FoldAll(b) == [Fold(b[0])] + FoldAll(b[1..]);
      if FoldAll(a) == FoldAll(b) {
        assert FoldAll(a)[1..] == FoldAll(a[1..]);
        assert FoldAll(b)[1..] == FoldAll(b[1..]);
      }
    }
  }

  /** The comparison only sees the folded form of its right operand. */
  lemma {:induction false} CompareCongruent(a: string, b: string, c: string)
    requires FoldAll(b) == FoldAll(c)
    ensures CompareIgnoreCase(a, b) == CompareIgnoreCase(a, c)
  {
    assert |b| == |c|;
    if |a| > 0 && |b| > 0 {
      assert Fold(b[0]) == FoldAll(b)[0] == FoldAll(c)[0] == Fold(c[0]);
      assert FoldAll(b[1..]) == FoldAll(b)[1..];
      assert FoldAll(c[1..]) == FoldAll(c)[1..];
      CompareCongruent(a[1..], b[1..], c[1..]);
    }
  }

  /** "Compares at most" is transitive, so the comparator is a total preorder. */
  lemma {:induction false} CompareTransitive(a: string, b: string, c: string)
    requires CompareIgnoreCase(a, b) <= 0 && CompareIgnoreCase(b, c) <= 0
    ensures CompareIgnoreCase(a, c) <= 0
  {
    if |a| > 0 && |b| > 0 && |c| > 0 {
      if Fold(a[0]) == Fold(b[0]) && Fold(b[0]) == Fold(c[0]) {
        CompareTransitive(a[1..], b[1..], c[1..]);
      }
    }
  }

  /** Of two strings, one always compares at most the other. */
  lemma {:induction false} CompareTotal(a: string, b: string)
    ensures CompareIgnoreCase(a, b) <= 0 || CompareIgnoreCase(b, a) <= 0
  {
    CompareAntisymmetric(a, b);
  }
}
