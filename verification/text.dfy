/**
  Identifier normalisation: `s.Trim().ToLower()`, as applied by the account
  controller to every user name, email and login identifier.

  `Trim` removes the characters .NET's `char.IsWhiteSpace` accepts from both
  ends; `ToLower` is modelled on ASCII letters only (culture-specific mappings
  of other letters are not modelled).
 */
module Text {

  /** The fixed set of characters `char.IsWhiteSpace` accepts. */
  predicate IsWhiteSpace(c: char) {
    || c == ' '
    || ('\t' <= c <= '\r')
    || c == '\U{85}' || c == '\U{A0}' || c == '\U{1680}'
    || ('\U{2000}' <= c <= '\U{200A}')
    || c == '\U{2028}' || c == '\U{2029}' || c == '\U{202F}' || c == '\U{205F}' || c == '\U{3000}'
  }

  /** `string.IsNullOrWhiteSpace` on a non-null string. */
  predicate IsBlank(s: string) {
    forall i :: 0 <= i < |s| ==> IsWhiteSpace(s[i])
  }

  predicate IsUpper(c: char) {
    'A' <= c <= 'Z'
  }

  function LowerChar(c: char): char {
    if IsUpper(c) then (c as int + 32) as char else c
  }

  /** `string.ToLower()` over ASCII letters. */
  function ToLower(s: string): string {
    seq(|s|, i requires 0 <= i < |s| => LowerChar(s[i]))
  }

  /** A string with no white space at either end. */
  predicate IsTrimmed(s: string) {
    s == [] || (!IsWhiteSpace(s[0]) && !IsWhiteSpace(s[|s| - 1]))
  }

  /** Everything of `s` outside `s[lo..hi]` is white space. */
  predicate IsStrip(s: string, lo: nat, hi: nat) {
    && lo <= hi <= |s|
    && (forall k :: 0 <= k < lo ==> IsWhiteSpace(s[k]))
    && (forall k :: hi <= k < |s| ==> IsWhiteSpace(s[k]))
  }

  /** `s[lo..hi]` has no white space at either end. */
  predicate IsTrimmedAt(s: string, lo: nat, hi: nat)
    requires lo <= hi <= |s|
  {
    lo == hi || (!IsWhiteSpace(s[lo]) && !IsWhiteSpace(s[hi - 1]))
  }

  /** The first index at or after `i` that does not hold white space. */
  function SkipLeading(s: string, i: nat): (lo: nat)
    requires i <= |s|
    ensures i <= lo <= |s|
    ensures forall k :: i <= k < lo ==> IsWhiteSpace(s[k])
    ensures lo == |s| || !IsWhiteSpace(s[lo])
    decreases |s| - i
  {
    if i < |s| && IsWhiteSpace(s[i]) then SkipLeading(s, i + 1) else i
  }

  /** The end of `s[lo..j]` once its trailing white space is dropped. */
  function SkipTrailing(s: string, lo: nat, j: nat): (hi: nat)
    requires lo <= j <= |s|
    ensures lo <= hi <= j
    ensures forall k :: hi <= k < j ==> IsWhiteSpace(s[k])
    ensures hi == lo || !IsWhiteSpace(s[hi - 1])
    decreases j
  {
    if lo < j && IsWhiteSpace(s[j - 1]) then SkipTrailing(s, lo, j - 1) else j
  }

  /** Where `string.Trim()` cuts: after the leading and before the trailing white space. */
  function TrimBounds(s: string): (b: (nat, nat))
    ensures IsStrip(s, b.0, b.1)
    ensures b.0 <= b.1 <= |s| && IsTrimmedAt(s, b.0, b.1)
  {
    var lo := SkipLeading(s, 0);
    (lo, SkipTrailing(s, lo, |s|))
  }

  /** `string.Trim()`: the slice between the leading and the trailing white space. */
  function Trim(s: string): (r: string)
    ensures IsTrimmed(r)
    ensures |r| <= |s|
    ensures exists lo: nat, hi: nat {:trigger s[lo..hi]} ::
      IsStrip(s, lo, hi) && IsTrimmedAt(s, lo, hi) && r == s[lo..hi]
  {
    var (lo, hi) := TrimBounds(s);
    assert lo < hi ==> s[lo..hi][0] == s[lo] && s[lo..hi][hi - lo - 1] == s[hi - 1];
    s[lo..hi]
  }

  /** The identifier normalisation of the account controller: trim, then lowercase. */
  function Normalize(s: string): (r: string)
    ensures IsNormalized(r)
    ensures EqualIgnoringCase(Trim(s), r)
  {
    ToLower(Trim(s))
  }

  /** What `Normalize` produces: no surrounding white space and no upper-case letter. */
  predicate IsNormalized(s: string) {
    IsTrimmed(s) && forall i :: 0 <= i < |s| ==> !IsUpper(s[i])
  }

  /** Reference for case-insensitive comparison: equal length, equal letters up to ASCII case. */
  predicate EqualIgnoringCase(a: string, b: string) {
    |a| == |b| && forall i :: 0 <= i < |a| ==> LowerChar(a[i]) == LowerChar(b[i])
  }

  /** Trimming is determined by its characterisation: the only trimmed strip of `s` is `Trim(s)`. */
  lemma TrimUnique(s: string, lo: nat, hi: nat)
    requires IsStrip(s, lo, hi) && IsTrimmedAt(s, lo, hi)
    ensures Trim(s) == s[lo..hi]
  {
  }

  /** Trimming leaves a string without surrounding white space as it is. */
  lemma TrimOfTrimmed(s: string)
    requires IsTrimmed(s)
    ensures Trim(s) == s
  {
  }

  /** `string.IsNullOrWhiteSpace` holds exactly when trimming leaves nothing. */
  lemma BlankIffTrimEmpty(s: string)
    ensures IsBlank(s) <==> Trim(s) == []
  {
  }

  /** Lowercasing twice is lowercasing once. */
  lemma ToLowerIdempotent(s: string)
    ensures ToLower(ToLower(s)) == ToLower(s)
  {
  }

  /** The result of `Normalize` is normalised. */
  lemma NormalizeIsNormalized(s: string)
    ensures IsNormalized(Normalize(s))
  {
  }

  /** `IsNormalized` describes exactly the fixed points of `Normalize`. */
  lemma NormalizedIffFixedPoint(s: string)
    ensures IsNormalized(s) <==> Normalize(s) == s
  {
  }

  /** Normalisation is idempotent. */
  lemma NormalizeIdempotent(s: string)
    ensures Normalize(Normalize(s)) == Normalize(s)
  {
    NormalizeIsNormalized(s);
    NormalizedIffFixedPoint(Normalize(s));
  }

  /** A normalised identifier is left unchanged by a further `ToLower`. */
  lemma ToLowerOfNormalized(s: string)
    ensures ToLower(Normalize(s)) == Normalize(s)
  {
  }

  /** Two strings normalise alike exactly when, once trimmed, they differ only in letter case. */
  lemma NormalizeEqualIff(x: string, y: string)
    ensures Normalize(x) == Normalize(y) <==> EqualIgnoringCase(Trim(x), Trim(y))
  {
    var a, b := Trim(x), Trim(y);
    if Normalize(x) == Normalize(y) {
      assert |a| == |ToLower(a)| == |ToLower(b)| == |b|;
      forall i | 0 <= i < |a|
        ensures LowerChar(a[i]) == LowerChar(b[i])
      {
        assert ToLower(a)[i] == ToLower(b)[i];
      }
    }
  }

  /** An example: surrounding spaces go and letters are lowered. */
  lemma NormalizeExample()
    ensures Normalize("  Foo@Bar.com ") == "foo@bar.com"
  {
    var s := "  Foo@Bar.com ";
    assert Trim(s) == "Foo@Bar.com" by {
      assert IsStrip(s, 2, 13) && IsTrimmedAt(s, 2, 13);
      TrimUnique(s, 2, 13);
      assert s[2..13] == "Foo@Bar.com";
    }
    assert ToLower("Foo@Bar.com") == "foo@bar.com";
  }
}
