/**
 * String tests the validator uses: the two regular expressions, written out
 * as predicates, and a stand-in for the case-insensitive collation of
 * `localeCompare(other, "en", {sensitivity: "base"})`.
 */
module Text {

  /** ASCII upper-case letters to lower case; every other character is left alone. */
  function ToLower(c: char): char
  {
    if 'A' <= c <= 'Z' then (c as int + ('a' as int - 'A' as int)) as char else c
  }

  /** A character of the class `[0-9a-z]`. */
  predicate IsDigitOrLower(c: char)
  {
    '0' <= c <= '9' || 'a' <= c <= 'z'
  }

  const NovaPrefix: string := "nova1"
  const NovaMinTail: nat := 10

  /** `/^nova1[0-9a-z]{10,}$/.test(s)`, anchored at both ends. */
  predicate IsNovaAddress(s: string)
  {
    && |s| >= |NovaPrefix| + NovaMinTail
    && s[..|NovaPrefix|] == NovaPrefix
    && forall i :: |NovaPrefix| <= i < |s| ==> IsDigitOrLower(s[i])
  }

  const HttpsScheme: string := "https://"

  /**
   * `/^https:\/\//i.test(s)`. Without the `u` flag, the `i` flag folds only
   * ASCII letters onto ASCII letters, which is what `ToLower` does.
   */
  predicate StartsWithHttps(s: string)
  {
    |HttpsScheme| <= |s| && forall i :: 0 <= i < |HttpsScheme| ==> ToLower(s[i]) == HttpsScheme[i]
  }

  /** The string with every character case-folded. */
  function Fold(s: string): string
  {
    seq(|s|, i requires 0 <= i < |s| => ToLower(s[i]))
  }

  /** Folding a folded string changes nothing: a folded string has no upper-case letter left. */
  lemma FoldIdempotent(s: string)
    ensures Fold(Fold(s)) == Fold(s)
    ensures forall i :: 0 <= i < |Fold(s)| ==> !('A' <= Fold(s)[i] <= 'Z')
  {
  }

  /** Lexicographic three-way comparison by character code: -1, 0 or 1. */
  function LexCompare(a: string, b: string): (r: int)
    ensures -1 <= r <= 1
  {
    if a == [] && b == [] then 0
    else if a == [] then -1
    else if b == [] then 1
    else if a[0] < b[0] then -1
    else if a[0] > b[0] then 1
    else LexCompare(a[1..], b[1..])
  }

  /**
   * The comparator of the order check, `a.localeCompare(b, "en",
   * {sensitivity: "base"})`, approximated by comparing the ASCII-folded
   * strings character by character. Negative: `a` sorts first; zero: the two
   * are equal at base strength.
   */
  function Compare(a: string, b: string): int
  {
    LexCompare(Fold(a), Fold(b))
  }

  /** Strings whose first characters differ after folding compare as those characters do. */
  lemma CompareByFirst(a: string, b: string)
    requires a != [] && b != [] && ToLower(a[0]) != ToLower(b[0])
    ensures Compare(a, b) < 0 <==> ToLower(a[0]) < ToLower(b[0])
    ensures Compare(a, b) != 0
  {
  }

  lemma {:induction false} LexCompareZero(a: string, b: string)
    ensures LexCompare(a, b) == 0 <==> a == b
  {
    if a != [] && b != [] && a[0] == b[0] {
      LexCompareZero(a[1..], b[1..]);
      assert a == [a[0]] + a[1..] && b == [b[0]] + b[1..];
    }
  }

  lemma {:induction false} LexCompareFlip(a: string, b: string)
    ensures LexCompare(b, a) == -LexCompare(a, b)
  {
    if a != [] && b != [] && a[0] == b[0] {
      LexCompareFlip(a[1..], b[1..]);
    }
  }

  lemma {:induction false} LexCompareTransitive(a: string, b: string, c: string)
    requires LexCompare(a, b) <= 0 && LexCompare(b, c) <= 0
    ensures LexCompare(a, c) <= 0
  {
    if a != [] && b != [] && c != [] && a[0] == b[0] == c[0] {
      LexCompareTransitive(a[1..], b[1..], c[1..]);
    }
  }

  /** Swapping the operands of the comparator negates its result. */
  lemma CompareFlip(a: string, b: string)
    ensures Compare(b, a) == -Compare(a, b)
  {
    LexCompareFlip(Fold(a), Fold(b));
  }

  /** The comparator's "not after" relation is transitive, so it is a total preorder. */
  lemma CompareTransitive(a: string, b: string, c: string)
    requires Compare(a, b) <= 0 && Compare(b, c) <= 0
    ensures Compare(a, c) <= 0
  {
    LexCompareTransitive(Fold(a), Fold(b), Fold(c));
  }

  /** Base strength: two strings compare equal exactly when they agree up to letter case. */
  lemma CompareZeroIffSameFold(a: string, b: string)
    ensures Compare(a, b) == 0 <==> Fold(a) == Fold(b)
  {
    LexCompareZero(Fold(a), Fold(b));
  }

  /** An address is the prefix `nova1` followed by at least ten digits and lower-case letters. */
  lemma NovaAddressParts(tail: string)
    ensures IsNovaAddress(NovaPrefix + tail) <==>
      |tail| >= NovaMinTail && forall i :: 0 <= i < |tail| ==> IsDigitOrLower(tail[i])
  {
  }

  /** Anything that does not start with `nova1` is refused. */
  lemma NovaAddressNeedsPrefix(s: string)
    requires IsNovaAddress(s)
    ensures exists tail :: s == NovaPrefix + tail
  {
    assert s == NovaPrefix + s[|NovaPrefix|..];
  }

  /** The scheme test does not depend on the case of the letters. */
  lemma HttpsIgnoresCase(s: string, t: string)
    requires Fold(s) == Fold(t)
    ensures StartsWithHttps(s) == StartsWithHttps(t)
  {
    assert forall i :: 0 <= i < |s| ==> ToLower(s[i]) == Fold(s)[i] == Fold(t)[i] == ToLower(t[i]);
  }
}
