/**
 * The three regular expressions the extractor searches with, written out as
 * matchers. Each pattern has a declarative form (which substrings `t[i..j]` it
 * matches) and a matcher that follows Python's backtracking search: the leftmost
 * start that matches and, at that start, the match greedy quantifiers produce.
 * For these patterns that match is the longest one, and the contracts say so.
 */
module Patterns {
  import opened Seqs
  import opened PyStr

  predicate IsAsciiLetter(c: char) { IsAsciiUpper(c) || IsAsciiLower(c) }

  /** `\d`, on ASCII. */
  predicate IsDigit(c: char) { '0' <= c <= '9' }

  predicate IsAlnum(c: char) { IsAsciiLetter(c) || IsDigit(c) }

  /** `[a-zA-Z0-9._%+-]`, the characters of an email's local part. */
  predicate IsLocalChar(c: char) {
    IsAlnum(c) || c == '.' || c == '_' || c == '%' || c == '+' || c == '-'
  }

  /** `[a-zA-Z0-9.-]`, the characters of an email's domain. */
  predicate IsDomainChar(c: char) { IsAlnum(c) || c == '.' || c == '-' }

  /** `[\d -]`, the characters between a phone number's first and last digit. */
  predicate IsPhoneChar(c: char) { IsDigit(c) || c == ' ' || c == '-' }

  /** `\w`, on ASCII. */
  predicate IsWordChar(c: char) { IsAlnum(c) || c == '_' }

  /** Every character of `t[lo..hi]` is in the class `p`. */
  predicate AllIn(t: string, lo: nat, hi: nat, p: char -> bool)
    requires lo <= hi <= |t|
  {
    forall k | lo <= k < hi :: p(t[k])
  }

  /** The end of the longest run of class `p` starting at `k`: what a greedy `[...]*` consumes. */
  function RunEnd(t: string, k: nat, p: char -> bool): (e: nat)
    requires k <= |t|
    ensures k <= e <= |t|
    ensures AllIn(t, k, e, p)
    ensures e == |t| || !p(t[e])
    decreases |t| - k
  {
    if k == |t| || !p(t[k]) then k else RunEnd(t, k + 1, p)
  }

  /** A run of class `p` cannot pass a character outside the class. */
  lemma RunEndStops(t: string, k: nat, p: char -> bool, m: nat)
    requires k <= m < |t| && !p(t[m])
    ensures RunEnd(t, k, p) <= m
  {
  }

  /** A run from `k` covers every stretch of class `p` that starts at `k`. */
  lemma RunEndCovers(t: string, k: nat, p: char -> bool, m: nat)
    requires k <= m <= |t| && AllIn(t, k, m, p)
    ensures m <= RunEnd(t, k, p)
    decreases |t| - k
  {
    if k < m {
      RunEndCovers(t, k + 1, p, m);
    }
  }

  /** Where a match begins and ends in the searched text. */
  datatype Match = Match(start: nat, end: nat)

  // ---------------------------------------------------------------------------
  // [a-zA-Z0-9._%+-]+@[a-zA-Z0-9.-]+\.[a-zA-Z]{2,}

  /** `t[i..j]` is `local@domain.tld` with the `@` at `a` and the dot before the top-level domain at `d`. */
  predicate EmailSplit(t: string, i: nat, a: nat, d: nat, j: nat) {
    && i < a && a + 1 < d && d + 3 <= j <= |t|
    && AllIn(t, i, a, IsLocalChar)
    && t[a] == '@'
    && AllIn(t, a + 1, d, IsDomainChar)
    && t[d] == '.'
    && AllIn(t, d + 1, j, IsAsciiLetter)
  }

  /** `t[i..j]` matches the email pattern. */
  ghost predicate EmailAt(t: string, i: nat, j: nat) {
    exists a: nat, d: nat :: EmailSplit(t, i, a, d, j)
  }

  /** A dot at `d` followed by two letters: where `\.[a-zA-Z]{2,}` can begin. */
  predicate TldDot(t: string, d: nat) {
    d + 2 < |t| && t[d] == '.' && IsAsciiLetter(t[d + 1]) && IsAsciiLetter(t[d + 2])
  }

  /** The last position in `[lo, hi)` where a top-level domain can begin. */
  function LastTldDot(t: string, lo: nat, hi: nat): (r: Option<nat>)
    requires lo <= hi <= |t|
    ensures r.Some? ==> lo <= r.value < hi && TldDot(t, r.value)
    ensures r.Some? ==> forall d :: r.value < d < hi ==> !TldDot(t, d)
    ensures r.None? ==> forall d :: lo <= d < hi ==> !TldDot(t, d)
    decreases hi
  {
    if hi == lo then None
    else if TldDot(t, hi - 1) then Some(hi - 1)
    else LastTldDot(t, lo, hi - 1)
  }

  /** What any email match starting at `i` must look like. */
  lemma EmailShape(t: string, i: nat, a: nat, d: nat, j: nat)
    requires EmailSplit(t, i, a, d, j)
    ensures a == RunEnd(t, i, IsLocalChar)
    ensures a + 2 <= d < RunEnd(t, a + 1, IsDomainChar)
    ensures TldDot(t, d)
    ensures j <= RunEnd(t, d + 1, IsAsciiLetter)
  {
    RunEndCovers(t, i, IsLocalChar, a);
    RunEndStops(t, i, IsLocalChar, a);
    RunEndCovers(t, a + 1, IsDomainChar, d + 1);
    RunEndCovers(t, d + 1, IsAsciiLetter, j);
  }

  /** Where the top-level domain can begin once the `@` is at `a`: the last dot that two letters follow. */
  function TldCandidate(t: string, a: nat): Option<nat>
    requires a < |t|
  {
    var e := RunEnd(t, a + 1, IsDomainChar);
    if a + 2 <= e then LastTldDot(t, a + 2, e) else None
  }

  /** Any email match starting at `i` has its `@` at the end of the local run and its dot no later than the candidate. */
  lemma EmailBounds(t: string, i: nat, a: nat, d: nat, j: nat)
    requires EmailSplit(t, i, a, d, j)
    ensures a == RunEnd(t, i, IsLocalChar)
    ensures TldCandidate(t, a).Some? && d <= TldCandidate(t, a).value
    ensures j <= RunEnd(t, d + 1, IsAsciiLetter)
  {
    EmailShape(t, i, a, d, j);
  }

  /** Without `@` after the local run, or without a top-level domain after it, nothing matches at `i`. */
  lemma NoEmailAt(t: string, i: nat)
    requires i <= |t|
    requires var a := RunEnd(t, i, IsLocalChar);
      a == i || a == |t| || t[a] != '@' || TldCandidate(t, a).None?
    ensures forall j :: i <= j <= |t| ==> !EmailAt(t, i, j)
  {
    forall a: nat, d: nat, j: nat ensures !EmailSplit(t, i, a, d, j) {
      if EmailSplit(t, i, a, d, j) {
        EmailBounds(t, i, a, d, j);
      }
    }
  }

  /** With the top-level domain beginning at the candidate `d`, the match ends where the letters after it do. */
  lemma GreedyEmailEnd(t: string, i: nat, d: nat)
    requires i <= |t|
    requires var a := RunEnd(t, i, IsLocalChar);
      a != i && a < |t| && t[a] == '@' && TldCandidate(t, a) == Some(d)
    ensures EmailAt(t, i, RunEnd(t, d + 1, IsAsciiLetter))
    ensures forall j :: RunEnd(t, d + 1, IsAsciiLetter) < j <= |t| ==> !EmailAt(t, i, j)
  {
    var a := RunEnd(t, i, IsLocalChar);
    var j := RunEnd(t, d + 1, IsAsciiLetter);
    RunEndCovers(t, d + 1, IsAsciiLetter, d + 3);
    assert EmailSplit(t, i, a, d, j);
    forall a': nat, d': nat, j': nat | EmailSplit(t, i, a', d', j') ensures j' <= j {
      EmailBounds(t, i, a', d', j');
      if d' < d {
        RunEndStops(t, d' + 1, IsAsciiLetter, d);
      }
    }
  }

  /**
   * The email match at start `i`, as Python's backtracking finds it: the local
   * part is the whole run before `@`, the domain backs off to the last dot that
   * two letters follow, and the top-level domain takes every letter after it.
   */
  function EmailMatchAt(t: string, i: nat): (r: Option<nat>)
    requires i <= |t|
    ensures r.Some? ==> EmailAt(t, i, r.value)
    ensures r.Some? ==> forall j :: r.value < j <= |t| ==> !EmailAt(t, i, j)
    ensures r.None? ==> forall j :: i <= j <= |t| ==> !EmailAt(t, i, j)
  {
    var a := RunEnd(t, i, IsLocalChar);
    if a == i || a == |t| || t[a] != '@' then
      NoEmailAt(t, i);
      None
    else
      match TldCandidate(t, a)
      case None =>
        NoEmailAt(t, i);
        None
      case Some(d) =>
        GreedyEmailEnd(t, i, d);
        Some(RunEnd(t, d + 1, IsAsciiLetter))
  }

  /** The leftmost email match at or after `i`, with its greedy end. */
  function EmailSearch(t: string, i: nat): (r: Option<Match>)
    requires i <= |t|
    ensures r.Some? ==> i <= r.value.start <= r.value.end <= |t| && EmailAt(t, r.value.start, r.value.end)
    ensures r.Some? ==> forall k, j :: i <= k < r.value.start && k <= j <= |t| ==> !EmailAt(t, k, j)
    ensures r.Some? ==> forall j :: r.value.end < j <= |t| ==> !EmailAt(t, r.value.start, j)
    ensures r.None? ==> forall k, j :: i <= k <= j <= |t| ==> !EmailAt(t, k, j)
    decreases |t| - i
  {
    match EmailMatchAt(t, i)
    case Some(j) => Some(Match(i, j))
    case None => if i == |t| then None else EmailSearch(t, i + 1)
  }

  // ---------------------------------------------------------------------------
  // \+?\d[\d -]{8,}\d

  /** `t[i..j]` is an optional `+`, a digit at `p`, eight or more of `[\d -]`, and a digit. */
  predicate PhoneSplit(t: string, i: nat, p: nat, j: nat) {
    && p + 10 <= j <= |t|
    && (p == i || (p == i + 1 && t[i] == '+'))
    && IsDigit(t[p])
    && AllIn(t, p + 1, j - 1, IsPhoneChar)
    && IsDigit(t[j - 1])
  }

  /** `t[i..j]` matches the phone pattern. */
  predicate PhoneAt(t: string, i: nat, j: nat) {
    PhoneSplit(t, i, i, j) || PhoneSplit(t, i, i + 1, j)
  }

  /** The last digit in `[lo, hi)`. */
  function LastDigit(t: string, lo: nat, hi: nat): (r: Option<nat>)
    requires lo <= hi <= |t|
    ensures r.Some? ==> lo <= r.value < hi && IsDigit(t[r.value])
    ensures r.Some? ==> forall q :: r.value < q < hi ==> !IsDigit(t[q])
    ensures r.None? ==> forall q :: lo <= q < hi ==> !IsDigit(t[q])
    decreases hi
  {
    if hi == lo then None
    else if IsDigit(t[hi - 1]) then Some(hi - 1)
    else LastDigit(t, lo, hi - 1)
  }

  /** What any phone match starting at `i` must look like. */
  lemma PhoneShape(t: string, i: nat, p: nat, j: nat)
    requires PhoneSplit(t, i, p, j)
    ensures p == if t[i] == '+' then i + 1 else i
    ensures j - 1 < RunEnd(t, p + 1, IsPhoneChar)
  {
    RunEndCovers(t, p + 1, IsPhoneChar, j);
  }

  /**
   * The phone match at start `i`, as Python's backtracking finds it: `\+?` takes
   * a `+` when there is one, `[\d -]{8,}` takes the whole run and gives back
   * characters until the last digit of the run can close the match.
   */
  function PhoneMatchAt(t: string, i: nat): (r: Option<nat>)
    requires i <= |t|
    ensures r.Some? ==> PhoneAt(t, i, r.value)
    ensures r.Some? ==> forall j :: r.value < j <= |t| ==> !PhoneAt(t, i, j)
    ensures r.None? ==> forall j :: i <= j <= |t| ==> !PhoneAt(t, i, j)
  {
    if i == |t| then None
    else
      var p := if t[i] == '+' then i + 1 else i;
      assert forall p': nat, j: nat | PhoneSplit(t, i, p', j) :: p' == p by {
        forall p': nat, j: nat | PhoneSplit(t, i, p', j) ensures p' == p {
          PhoneShape(t, i, p', j);
        }
      }
      if p == |t| || !IsDigit(t[p]) then None
      else
        var e := RunEnd(t, p + 1, IsPhoneChar);
        var found := if p + 9 <= e then LastDigit(t, p + 9, e) else None;
        assert forall j: nat | PhoneSplit(t, i, p, j) :: found.Some? && j - 1 <= found.value by {
          forall j: nat | PhoneSplit(t, i, p, j) ensures found.Some? && j - 1 <= found.value {
            PhoneShape(t, i, p, j);
          }
        }
        match found
        case None => None
        case Some(q) =>
          assert PhoneSplit(t, i, p, q + 1);
          Some(q + 1)
  }

  /** The leftmost phone match at or after `i`, with its greedy end. */
  function PhoneSearch(t: string, i: nat): (r: Option<Match>)
    requires i <= |t|
    ensures r.Some? ==> i <= r.value.start <= r.value.end <= |t| && PhoneAt(t, r.value.start, r.value.end)
    ensures r.Some? ==> forall k, j :: i <= k < r.value.start && k <= j <= |t| ==> !PhoneAt(t, k, j)
    ensures r.Some? ==> forall j :: r.value.end < j <= |t| ==> !PhoneAt(t, r.value.start, j)
    ensures r.None? ==> forall k, j :: i <= k <= j <= |t| ==> !PhoneAt(t, k, j)
    decreases |t| - i
  {
    match PhoneMatchAt(t, i)
    case Some(j) => Some(Match(i, j))
    case None => if i == |t| then None else PhoneSearch(t, i + 1)
  }

  // ---------------------------------------------------------------------------
  // \b<word>\b, case-insensitive

  /** `\b` at position `k`: a word character on exactly one side. */
  predicate BoundaryAt(t: string, k: nat)
    requires k <= |t|
  {
    (k > 0 && IsWordChar(t[k - 1])) != (k < |t| && IsWordChar(t[k]))
  }

  /** `t[i..i + |w|]` equals `w` up to ASCII case and is a whole word. */
  predicate WholeWordAt(t: string, w: string, i: nat) {
    && i + |w| <= |t|
    && BoundaryAt(t, i)
    && BoundaryAt(t, i + |w|)
    && forall m | 0 <= m < |w| :: LowerChar(t[i + m]) == LowerChar(w[m])
  }

  /** Whether `\b<w>\b` matches case-insensitively at some start at or after `i`. */
  function WholeWordFrom(t: string, w: string, i: nat): (b: bool)
    requires i <= |t|
    ensures b <==> exists k :: i <= k <= |t| && WholeWordAt(t, w, k)
    decreases |t| - i
  {
    if WholeWordAt(t, w, i) then true
    else if i == |t| then false
    else WholeWordFrom(t, w, i + 1)
  }
}
