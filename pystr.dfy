/**
 * The Python `str` built-ins the extractor relies on: `strip()`, `lower()`,
 * `isupper()`, `istitle()` and the substring test `k in s`. Case is modelled
 * over ASCII letters; whitespace is Python's full `str.isspace` set.
 */
module PyStr {

  /** Python's `str.isspace` for one character. */
  predicate IsSpace(c: char) {
    var n := c as int;
    (9 <= n <= 13) || (28 <= n <= 32) || n == 0x85 || n == 0xA0 || n == 0x1680
    || (0x2000 <= n <= 0x200A) || n == 0x2028 || n == 0x2029 || n == 0x202F
    || n == 0x205F || n == 0x3000
  }

  predicate IsAsciiUpper(c: char) { 'A' <= c <= 'Z' }

  predicate IsAsciiLower(c: char) { 'a' <= c <= 'z' }

  /** A cased character in Python's sense: an upper- or lower-case letter. */
  predicate IsCased(c: char) { IsAsciiUpper(c) || IsAsciiLower(c) }

  /** The first index at or after `i` that is not whitespace, or `|s|`. */
  function FirstNonSpace(s: string, i: nat): (k: nat)
    requires i <= |s|
    ensures i <= k <= |s|
    ensures forall m :: i <= m < k ==> IsSpace(s[m])
    ensures k < |s| ==> !IsSpace(s[k])
    decreases |s| - i
  {
    if i == |s| || !IsSpace(s[i]) then i else FirstNonSpace(s, i + 1)
  }

  /** The end of `s[lo..j]` once trailing whitespace is dropped. */
  function EndNonSpace(s: string, lo: nat, j: nat): (k: nat)
    requires lo <= j <= |s|
    ensures lo <= k <= j
    ensures forall m :: k <= m < j ==> IsSpace(s[m])
    ensures k > lo ==> !IsSpace(s[k - 1])
    decreases j
  {
    if j == lo || !IsSpace(s[j - 1]) then j else EndNonSpace(s, lo, j - 1)
  }

  /**
   * Where `s.strip()` begins and ends in `s`: everything outside the bounds is
   * whitespace, and a non-empty result begins and ends with a non-space.
   */
  function StripBounds(s: string): (b: (nat, nat))
    ensures b.0 <= b.1 <= |s|
    ensures forall m :: 0 <= m < b.0 ==> IsSpace(s[m])
    ensures forall m :: b.1 <= m < |s| ==> IsSpace(s[m])
    ensures b.0 < b.1 ==> !IsSpace(s[b.0]) && !IsSpace(s[b.1 - 1])
  {
    var lo := FirstNonSpace(s, 0);
    (lo, EndNonSpace(s, lo, |s|))
  }

  /** Python's `s.strip()` with no argument. */
  function Strip(s: string): (r: string)
    ensures |r| <= |s|
    ensures r == [] || (!IsSpace(r[0]) && !IsSpace(r[|r| - 1]))
    ensures r == [] <==> forall m :: 0 <= m < |s| ==> IsSpace(s[m])
  {
    var b := StripBounds(s);
    s[b.0..b.1]
  }

  /** The strip bounds are the only ones with the stated properties. */
  lemma StripBoundsUnique(s: string, lo: nat, hi: nat)
    requires lo < hi <= |s|
    requires forall m :: 0 <= m < lo ==> IsSpace(s[m])
    requires forall m :: hi <= m < |s| ==> IsSpace(s[m])
    requires !IsSpace(s[lo]) && !IsSpace(s[hi - 1])
    ensures StripBounds(s) == (lo, hi)
  {
  }

  /** A string that neither begins nor ends with whitespace is its own strip. */
  lemma StripUnpadded(s: string)
    requires s != [] && !IsSpace(s[0]) && !IsSpace(s[|s| - 1])
    ensures Strip(s) == s
  {
    StripBoundsUnique(s, 0, |s|);
    assert s[0..|s|] == s;
  }

  function LowerChar(c: char): (r: char)
    ensures IsAsciiUpper(c) ==> IsAsciiLower(r)
    ensures !IsAsciiUpper(c) ==> r == c
  {
    if IsAsciiUpper(c) then (c as int + 32) as char else c
  }

  /** Python's `s.lower()`, on ASCII letters. */
  function Lower(s: string): (r: string)
    ensures |r| == |s|
    ensures forall k :: 0 <= k < |r| ==> !IsAsciiUpper(r[k])
    ensures forall k :: 0 <= k < |s| ==> r[k] == s[k] || (IsAsciiUpper(s[k]) && r[k] as int == s[k] as int + 32)
  {
    seq(|s|, k requires 0 <= k < |s| => LowerChar(s[k]))
  }

  /** Python's `s.isupper()`: some cased character, and none of them lower-case. */
  predicate IsUpper(s: string) {
    (exists k | 0 <= k < |s| :: IsAsciiUpper(s[k]))
    && forall k | 0 <= k < |s| :: !IsAsciiLower(s[k])
  }

  /**
   * The scan behind Python's `s.istitle()`, from index `i`: an upper-case letter
   * may not follow a cased character, a lower-case letter must follow one, and
   * some character must be cased. `prevCased` and `cased` are the scan's two flags.
   */
  function TitleScan(s: string, i: nat, prevCased: bool, cased: bool): bool
    requires i <= |s|
    decreases |s| - i
  {
    if i == |s| then cased
    else if IsAsciiUpper(s[i]) then
      if prevCased then false else TitleScan(s, i + 1, true, true)
    else if IsAsciiLower(s[i]) then
      if !prevCased then false else TitleScan(s, i + 1, true, true)
    else TitleScan(s, i + 1, false, cased)
  }

  /** Python's `s.istitle()`. */
  predicate IsTitle(s: string) {
    TitleScan(s, 0, false, false)
  }

  /** Whether the character before position `k` is cased; at the scan's start `i` it is `prev`. */
  predicate CasedBefore(s: string, i: nat, k: nat, prev: bool)
    requires i <= k < |s|
  {
    if k == i then prev else IsCased(s[k - 1])
  }

  /** Title case from index `i` on, stated position by position. */
  predicate TitleCasedFrom(s: string, i: nat, prev: bool, cased: bool)
    requires i <= |s|
  {
    && (cased || exists k | i <= k < |s| :: IsCased(s[k]))
    && (forall k | i <= k < |s| :: IsAsciiUpper(s[k]) ==> !CasedBefore(s, i, k, prev))
    && (forall k | i <= k < |s| :: IsAsciiLower(s[k]) ==> CasedBefore(s, i, k, prev))
  }

  lemma {:induction false} TitleScanMeaning(s: string, i: nat, prev: bool, cased: bool)
    requires i <= |s|
    ensures TitleScan(s, i, prev, cased) <==> TitleCasedFrom(s, i, prev, cased)
    decreases |s| - i
  {
    if i < |s| {
      var c := s[i];
      var prev' := IsCased(c);
      var cased' := cased || IsCased(c);
      assert forall k | i + 1 < k < |s| :: CasedBefore(s, i, k, prev) == CasedBefore(s, i + 1, k, prev');
      assert i + 1 < |s| ==> CasedBefore(s, i, i + 1, prev) == CasedBefore(s, i + 1, i + 1, prev');
      TitleScanMeaning(s, i + 1, prev', cased');
      if !IsCased(c) {
        if !cased && TitleCasedFrom(s, i, prev, cased) {
          var k :| i <= k < |s| && IsCased(s[k]);
          assert k > i;
        }
      }
    }
  }

  /**
   * Python's `istitle()`: some character is cased, every upper-case letter starts
   * the string or follows an uncased character, and every lower-case letter
   * follows a cased one.
   */
  lemma IsTitleMeaning(s: string)
    ensures IsTitle(s) <==>
      && (exists k | 0 <= k < |s| :: IsCased(s[k]))
      && (forall k | 0 <= k < |s| :: IsAsciiUpper(s[k]) ==> k == 0 || !IsCased(s[k - 1]))
      && (forall k | 0 <= k < |s| :: IsAsciiLower(s[k]) ==> k > 0 && IsCased(s[k - 1]))
  {
    TitleScanMeaning(s, 0, false, false);
    assert forall k | 0 <= k < |s| :: CasedBefore(s, 0, k, false) <==> k > 0 && IsCased(s[k - 1]);
  }

  /** `k` occurs in `s` starting at index `i`. */
  predicate OccursAt(s: string, k: string, i: nat) {
    i + |k| <= |s| && s[i..i + |k|] == k
  }

  /** Python's substring test `k in s`. */
  predicate Contains(s: string, k: string) {
    exists i | 0 <= i <= |s| :: OccursAt(s, k, i)
  }

  /** Python's `any(k in s for k in keys)`. */
  predicate ContainsAny(s: string, keys: seq<string>) {
    exists k | k in keys :: Contains(s, k)
  }

  /** A string that lacks one of the characters of `k` does not contain `k`. */
  lemma NotContainsMissingChar(s: string, k: string, c: char)
    requires c in k && c !in s
    ensures !Contains(s, k)
  {
    var m :| 0 <= m < |k| && k[m] == c;
    forall i | 0 <= i <= |s| ensures !OccursAt(s, k, i) {
      if i + |k| <= |s| {
        assert s[i..i + |k|][m] == s[i + m];
        assert s[i + m] in s;
      }
    }
  }

  /** A string that contains `k` contains every prefix of `k`. */
  lemma ContainsKeyPrefix(s: string, k: string, j: nat)
    requires j <= |k| && Contains(s, k)
    ensures Contains(s, k[..j])
  {
    var i :| 0 <= i <= |s| && OccursAt(s, k, i);
    assert s[i..i + j] == k[..j];
    assert OccursAt(s, k[..j], i);
  }

  /**
   * Python's `any(k in s for k in keys)` is false when every key has a
   * character that `s` lacks; `missing[j]` is where it is in `keys[j]`.
   */
  lemma NoKeyIn(s: string, keys: seq<string>, missing: seq<nat>)
    requires |missing| == |keys|
    requires forall j :: 0 <= j < |keys| ==> missing[j] < |keys[j]| && keys[j][missing[j]] !in s
    ensures !ContainsAny(s, keys)
  {
    forall k | k in keys ensures !Contains(s, k) {
      var j :| 0 <= j < |keys| && keys[j] == k;
      NotContainsMissingChar(s, k, k[missing[j]]);
    }
  }

  /** Python's `any(k in s for k in keys)` holds when `keys[j]` occurs in `s` at `i`. */
  lemma SomeKeyIn(s: string, keys: seq<string>, j: nat, i: nat)
    requires j < |keys| && OccursAt(s, keys[j], i)
    ensures ContainsAny(s, keys)
  {
    assert keys[j] in keys;
  }
}
