/** The Python string operations the application relies on: `str.strip()`,
    `str.lower()`, the substring test `needle in hay` and slicing. */
module Text {

  /** Python's `str.isspace()` for one character: the ASCII separators and
      the Unicode space characters. */
  predicate IsSpace(c: char)
  {
    || ('\t' <= c <= '\r')
    || ('\U{1C}' <= c <= '\U{1F}')
    || c == ' ' || c == '\U{85}' || c == '\U{A0}' || c == '\U{1680}'
    || ('\U{2000}' <= c <= '\U{200A}')
    || c == '\U{2028}' || c == '\U{2029}' || c == '\U{202F}' || c == '\U{205F}' || c == '\U{3000}'
  }

  /** `needle` occurs in `hay` starting at index `k`. */
  predicate OccursAt(hay: string, needle: string, k: nat)
  {
    k + |needle| <= |hay| && hay[k..k + |needle|] == needle
  }

  /** The first index at or after `i` that holds no whitespace (or `|s|`). */
  function StartOf(s: string, i: nat): (n: nat)
    requires i <= |s|
    decreases |s| - i
    ensures i <= n <= |s|
    ensures forall k :: i <= k < n ==> IsSpace(s[k])
    ensures n < |s| ==> !IsSpace(s[n])
  {
    if i == |s| || !IsSpace(s[i]) then i else StartOf(s, i + 1)
  }

  /** The end of `s[lo..j]` once its trailing whitespace is removed. */
  function EndOf(s: string, lo: nat, j: nat): (n: nat)
    requires lo <= j <= |s|
    ensures lo <= n <= j
    ensures forall k :: n <= k < j ==> IsSpace(s[k])
    ensures n > lo ==> !IsSpace(s[n - 1])
  {
    if j == lo || !IsSpace(s[j - 1]) then j else EndOf(s, lo, j - 1)
  }

  /** Python's `str.strip()`: `s` with its leading and trailing whitespace
      removed, so the result neither starts nor ends with whitespace and is
      empty exactly when `s` is all whitespace. */
  function Strip(s: string): (r: string)
    ensures exists lo, hi :: (&& 0 <= lo <= hi <= |s| && r == s[lo..hi]
                              && (forall k :: 0 <= k < lo ==> IsSpace(s[k]))
                              && (forall k :: hi <= k < |s| ==> IsSpace(s[k])))
    ensures r == [] || (!IsSpace(r[0]) && !IsSpace(r[|r| - 1]))
    ensures r == [] <==> forall i :: 0 <= i < |s| ==> IsSpace(s[i])
  {
    var lo := StartOf(s, 0);
    var hi := EndOf(s, lo, |s|);
    assert forall k :: hi <= k < |s| ==> IsSpace(s[k]);
    s[lo..hi]
  }

  predicate IsUpper(c: char)
  {
    'A' <= c <= 'Z'
  }

  function LowerChar(c: char): char
  {
    if IsUpper(c) then (c as int + 32) as char else c
  }

  /** Python's `str.lower()`, restricted to the ASCII letters: every upper-case
      letter becomes its lower-case partner and nothing else changes. */
  function Lower(s: string): (r: string)
    ensures |r| == |s|
    ensures forall i :: 0 <= i < |r| ==> !IsUpper(r[i])
    ensures forall i :: 0 <= i < |s| && !IsUpper(s[i]) ==> r[i] == s[i]
    ensures forall i :: 0 <= i < |s| && IsUpper(s[i]) ==> r[i] as int == s[i] as int + 32
  {
    seq(|s|, i requires 0 <= i < |s| => LowerChar(s[i]))
  }

  /** Lowering is idempotent, so lowering the search text once is enough. */
  lemma {:induction false} LowerIdempotent(s: string)
    ensures Lower(Lower(s)) == Lower(s)
  {
    var l := Lower(s);
    assert forall i :: 0 <= i < |l| ==> Lower(l)[i] == l[i];
  }

  /** Python's `needle in hay` for strings. */
  function Contains(hay: string, needle: string): (b: bool)
    ensures b <==> exists k: nat :: OccursAt(hay, needle, k)
  {
    if |needle| > |hay| then
      assert forall k: nat :: !OccursAt(hay, needle, k);
      false
    else if hay[..|needle|] == needle then
      assert OccursAt(hay, needle, 0);
      true
    else
      var rest := Contains(hay[1..], needle);
      assert rest ==> exists k: nat :: OccursAt(hay, needle, k) by {
        if rest {
          var k: nat :| OccursAt(hay[1..], needle, k);
          assert hay[1..][k..k + |needle|] == hay[k + 1..k + 1 + |needle|];
          assert OccursAt(hay, needle, k + 1);
        }
      }
      assert (exists k: nat :: OccursAt(hay, needle, k)) ==> rest by {
        if k: nat :| OccursAt(hay, needle, k) {
          assert k != 0;
          assert hay[1..][k - 1..k - 1 + |needle|] == hay[k..k + |needle|];
          assert OccursAt(hay[1..], needle, k - 1);
        }
      }
      rest
  }
}
