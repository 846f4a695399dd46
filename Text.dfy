/** The .NET string operations the core relies on: String.Trim, String.ToLowerInvariant, and the
    OrdinalIgnoreCase comparison used by the cleaner's HashSet<string>, by its watcher lookup and by
    the form's Enumerable.Contains calls. Case mapping is modelled for the ASCII letters only. */
module Text {

  /** Char.IsWhiteSpace: U+0009..U+000D, U+0085, and the Unicode space, line and paragraph separators. */
  predicate IsWhiteSpace(c: char): (b: bool)
    ensures c < '\U{80}' ==> (b <==> c == ' ' || '\t' <= c <= '\r')
    ensures b ==> !('A' <= c <= 'Z') && !('a' <= c <= 'z') && c != '.'
  {
    ('\t' <= c <= '\r') || c == ' ' || c == '\U{85}' || c == '\U{A0}' || c == '\U{1680}'
    || ('\U{2000}' <= c <= '\U{200A}') || c == '\U{2028}' || c == '\U{2029}'
    || c == '\U{202F}' || c == '\U{205F}' || c == '\U{3000}'
  }

  /** Neither the first nor the last character is white space. */
  predicate IsTrimmed(s: string) {
    s == [] || (!IsWhiteSpace(s[0]) && !IsWhiteSpace(s[|s| - 1]))
  }

  /** The position of the first character at or after i that is not white space (|s| if none). */
  function SkipLeading(s: string, i: nat): (j: nat)
    requires i <= |s|
    ensures i <= j <= |s|
    ensures forall k :: i <= k < j ==> IsWhiteSpace(s[k])
    ensures j < |s| ==> !IsWhiteSpace(s[j])
    decreases |s| - i
  {
    if i < |s| && IsWhiteSpace(s[i]) then SkipLeading(s, i + 1) else i
  }

  /** The end of s[lo..j] once its trailing white space is dropped. */
  function SkipTrailing(s: string, lo: nat, j: nat): (e: nat)
    requires lo <= j <= |s|
    ensures lo <= e <= j
    ensures forall k :: e <= k < j ==> IsWhiteSpace(s[k])
    ensures e > lo ==> !IsWhiteSpace(s[e - 1])
    decreases j
  {
    if j > lo && IsWhiteSpace(s[j - 1]) then SkipTrailing(s, lo, j - 1) else j
  }

  /** String.Trim: drops the leading and the trailing white space. */
  function Trim(s: string): (r: string)
    ensures |r| <= |s|
    ensures IsTrimmed(r)
  {
    var i := SkipLeading(s, 0);
    s[i..SkipTrailing(s, i, |s|)]
  }

  /** Trim's result is the one slice s[i..j] that has no surrounding white space and outside which
      s holds only white space. */
  lemma TrimIsTheTrimmedSlice(s: string, i: nat, j: nat)
    requires i <= j <= |s|
    requires forall k :: 0 <= k < i ==> IsWhiteSpace(s[k])
    requires forall k :: j <= k < |s| ==> IsWhiteSpace(s[k])
    requires IsTrimmed(s[i..j])
    ensures Trim(s) == s[i..j]
  {
    var a := SkipLeading(s, 0);
    var e := SkipTrailing(s, a, |s|);
    if i < j {
      assert s[i] == s[i..j][0] && s[j - 1] == s[i..j][j - i - 1];
      assert a == i;
      assert e == j;
    } else {
      assert a == |s|;
    }
  }

  /** Trimming an already trimmed string changes nothing; in particular Trim is idempotent. */
  lemma TrimOfTrimmed(s: string)
    requires IsTrimmed(s)
    ensures Trim(s) == s
  {
  }

  function ToLowerChar(c: char): char {
    if 'A' <= c <= 'Z' then (c as int + 32) as char else c
  }

  /** OrdinalIgnoreCase compares characters by their upper-case form. */
  function FoldChar(c: char): char {
    if 'a' <= c <= 'z' then (c as int - 32) as char else c
  }

  /** The key under which OrdinalIgnoreCase compares a string: two strings are equal ignoring case
      exactly when their keys are equal. */
  function Fold(s: string): (r: string)
    ensures |r| == |s|
    ensures forall k :: 0 <= k < |s| ==> !('a' <= r[k] <= 'z')
  {
    seq(|s|, k requires 0 <= k < |s| => FoldChar(s[k]))
  }

  /** A key is its own key: folding twice changes nothing. */
  lemma FoldIdempotent(s: string)
    ensures Fold(Fold(s)) == Fold(s)
  {
  }

  /** The key of a string with one more character in front. */
  lemma FoldPrepend(c: char, s: string)
    ensures Fold([c] + s) == [FoldChar(c)] + Fold(s)
  {
  }

  predicate HasNoUpper(s: string) {
    forall k :: 0 <= k < |s| ==> !('A' <= s[k] <= 'Z')
  }

  /** String.ToLowerInvariant: the only string of the same length without upper-case letters that
      is equal to s ignoring case. */
  function ToLowerInvariant(s: string): (r: string)
    ensures |r| == |s|
    ensures HasNoUpper(r)
    ensures Fold(r) == Fold(s)
  {
    seq(|s|, k requires 0 <= k < |s| => ToLowerChar(s[k]))
  }

  /** Lower-casing a string that has no upper-case letters changes nothing. */
  lemma ToLowerOfLower(s: string)
    requires HasNoUpper(s)
    ensures ToLowerInvariant(s) == s
  {
  }

  /** Lower-casing never turns a character into white space or back, so it keeps a string trimmed. */
  lemma ToLowerKeepsTrimmed(s: string)
    requires IsTrimmed(s)
    ensures IsTrimmed(ToLowerInvariant(s))
  {
  }

  /** Enumerable.Contains(xs, x, StringComparer.OrdinalIgnoreCase). */
  predicate ContainsIgnoreCase(xs: seq<string>, x: string): (b: bool)
    ensures x in xs ==> b
    ensures forall k :: 0 <= k < |xs| && Fold(xs[k]) == Fold(x) ==> b
    ensures xs == [] ==> !b
  {
    exists k :: 0 <= k < |xs| && Fold(xs[k]) == Fold(x)
  }

  /** No two entries are equal ignoring case. */
  predicate NoDupIgnoreCase(xs: seq<string>) {
    forall i, j :: 0 <= i < j < |xs| ==> Fold(xs[i]) != Fold(xs[j])
  }
}
