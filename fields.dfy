/**
 * The single-value fields of a profile: the candidate's name, email and phone,
 * and the skills from the fixed taxonomy that the text mentions.
 */
module Fields {
  import opened Seqs
  import opened PyStr
  import opened Patterns

  /** The index of the first newline at or after `i`, or `|text|`. */
  function LineEnd(text: string, i: nat): (k: nat)
    requires i <= |text|
    ensures i <= k <= |text|
    ensures forall m :: i <= m < k ==> text[m] != '\n'
    ensures k < |text| ==> text[k] == '\n'
    decreases |text| - i
  {
    if i == |text| || text[i] == '\n' then i else LineEnd(text, i + 1)
  }

  /** `text.split('\n')[0]`: everything before the first newline. */
  function FirstLine(text: string): (r: string)
    ensures '\n' !in r
    ensures r <= text
    ensures r == text || text[|r|] == '\n'
  {
    text[..LineEnd(text, 0)]
  }

  /** The name field: the stripped first line, absent only for empty text. */
  function Name(text: string): (r: Option<string>)
    ensures r.None? <==> text == []
    ensures r.Some? ==> '\n' !in r.value && |r.value| <= |text|
  {
    if text != [] then Some(Strip(FirstLine(text))) else None
  }

  /** The name is the stripped text before the first newline, whatever follows it. */
  lemma NameOfFirstLine(line: string, rest: string)
    requires '\n' !in line
    ensures Name(line + "\n" + rest) == Some(Strip(line))
  {
    var text := line + "\n" + rest;
    assert text[|line|] == '\n';
    assert forall m :: 0 <= m < |line| ==> text[m] == line[m];
    assert text[..|line|] == line;
  }

  /** A text without a newline is its own first line. */
  lemma NameOfSingleLine(line: string)
    requires line != [] && '\n' !in line
    ensures Name(line) == Some(Strip(line))
  {
    assert line[..|line|] == line;
  }

  /** A non-empty text whose first line is blank has the empty name, not an absent one. */
  lemma NameOfBlankFirstLine(text: string)
    requires text != []
    requires forall m :: 0 <= m < LineEnd(text, 0) ==> IsSpace(text[m])
    ensures Name(text) == Some("")
  {
  }

  /**
   * `text[i..j]` is what `re.search` reports for the email pattern: a match,
   * no match starts earlier, and none starting at `i` is longer.
   */
  ghost predicate FirstEmail(text: string, i: nat, j: nat) {
    && i <= j <= |text|
    && EmailAt(text, i, j)
    && (forall k, j' :: 0 <= k < i && k <= j' <= |text| ==> !EmailAt(text, k, j'))
    && (forall j' :: j < j' <= |text| ==> !EmailAt(text, i, j'))
  }

  /** The email field: the leftmost, longest substring of `text` that matches the email pattern. */
  function Email(text: string): (r: Option<string>)
    ensures r.None? <==> forall i, j :: 0 <= i <= j <= |text| ==> !EmailAt(text, i, j)
    ensures r.Some? ==> exists i: nat, j: nat :: FirstEmail(text, i, j) && r.value == text[i..j]
    ensures r.Some? ==> '@' in r.value && |r.value| >= 6
  {
    match EmailSearch(text, 0)
    case None => None
    case Some(m) =>
      assert FirstEmail(text, m.start, m.end);
      assert '@' in text[m.start..m.end] by {
        var a: nat, d: nat :| EmailSplit(text, m.start, a, d, m.end);
        assert text[m.start..m.end][a - m.start] == '@';
      }
      Some(text[m.start..m.end])
  }

  /** A text without `@` yields no email. */
  lemma EmailNeedsAt(text: string)
    requires '@' !in text
    ensures Email(text) == None
  {
    forall i, j | 0 <= i <= j <= |text| ensures !EmailAt(text, i, j) {
      forall a: nat, d: nat ensures !EmailSplit(text, i, a, d, j) {
        if a < |text| {
          assert text[a] in text;
        }
      }
    }
  }

  /** A text that is one email address in its entirety is its own email. */
  lemma EmailOfWholeText(text: string)
    requires EmailAt(text, 0, |text|)
    ensures Email(text) == Some(text)
  {
    assert text[0..|text|] == text;
  }

  lemma EmailExample()
    ensures Email("jane.doe@example.com") == Some("jane.doe@example.com")
  {
    var t := "jane.doe@example.com";
    assert AllIn(t, 0, 8, IsLocalChar);
    assert AllIn(t, 9, 16, IsDomainChar);
    assert AllIn(t, 17, 20, IsAsciiLetter);
    assert EmailSplit(t, 0, 8, 16, 20);
    EmailOfWholeText(t);
  }

  /** `text[i..j]` is what `re.search` reports for the phone pattern. */
  predicate FirstPhone(text: string, i: nat, j: nat) {
    && i <= j <= |text|
    && PhoneAt(text, i, j)
    && (forall k, j' :: 0 <= k < i && k <= j' <= |text| ==> !PhoneAt(text, k, j'))
    && (forall j' :: j < j' <= |text| ==> !PhoneAt(text, i, j'))
  }

  /** The phone field: the leftmost, longest substring of `text` that matches the phone pattern. */
  function Phone(text: string): (r: Option<string>)
    ensures r.None? <==> forall i, j :: 0 <= i <= j <= |text| ==> !PhoneAt(text, i, j)
    ensures r.Some? ==> exists i: nat, j: nat :: FirstPhone(text, i, j) && r.value == text[i..j]
    ensures r.Some? ==> |r.value| >= 10
  {
    match PhoneSearch(text, 0)
    case None => None
    case Some(m) =>
      assert FirstPhone(text, m.start, m.end);
      Some(text[m.start..m.end])
  }

  /** An international number with spaces and dashes is taken in full. */
  lemma PhoneExample()
    ensures Phone("+1 555-123-4567") == Some("+1 555-123-4567")
  {
    var t := "+1 555-123-4567";
    assert PhoneSplit(t, 0, 1, 15);
    var r := PhoneSearch(t, 0);
    assert r.value.start == 0;
    assert t[0..15] == t;
  }

  /** A seven-digit local number is too short to be taken as a phone number. */
  lemma PhoneTooShort()
    ensures Phone("555-1234") == None
  {
  }

  /** The skills taxonomy, in the order skills are reported. */
  const Taxonomy: seq<string> :=
    ["Python", "Java", "JavaScript", "React", "Node.js", "SQL",
     "Docker", "AWS", "Git", "HTML", "CSS", "Machine Learning"]

  /** Whether `\b<skill>\b` occurs in `text`, ignoring case. */
  predicate Mentions(text: string, skill: string) {
    WholeWordFrom(text, skill, 0)
  }

  /** The test the skills loop applies to each taxonomy entry. */
  function MentionedIn(text: string): string -> bool {
    skill => Mentions(text, skill)
  }

  /** The skills of `text`: the taxonomy entries it mentions, in taxonomy order. */
  function SkillsFound(text: string): seq<string> {
    Filter(MentionedIn(text), Taxonomy)
  }

  lemma TaxonomyNoDuplicates()
    ensures NoDuplicates(Taxonomy)
  {
  }

  /**
   * The skills are a duplicate-free subsequence of the taxonomy, and an entry is
   * among them exactly when the text mentions it as a whole word.
   */
  lemma SkillsFoundMeaning(text: string)
    ensures IsSubsequence(SkillsFound(text), Taxonomy)
    ensures NoDuplicates(SkillsFound(text))
    ensures forall s :: s in SkillsFound(text) <==> s in Taxonomy && exists k :: 0 <= k <= |text| && WholeWordAt(text, s, k)
  {
    FilterIsSubsequence(MentionedIn(text), Taxonomy);
    TaxonomyNoDuplicates();
    FilterNoDuplicates(MentionedIn(text), Taxonomy);
    forall s ensures s in SkillsFound(text) <==> s in Taxonomy && Mentions(text, s) {
      InFilter(MentionedIn(text), Taxonomy, s);
    }
  }

  /** The skills loop: each taxonomy entry is tested in turn and kept when mentioned. */
  method ExtractSkills(text: string) returns (skills: seq<string>)
    ensures skills == SkillsFound(text)
  {
    skills := [];
    for n := 0 to |Taxonomy|
      invariant skills == Filter(MentionedIn(text), Taxonomy[..n])
    {
      var skill := Taxonomy[n];
      assert Taxonomy[..n + 1][..n] == Taxonomy[..n];
      if Mentions(text, skill) {
        skills := skills + [skill];
      }
    }
    assert Taxonomy[..|Taxonomy|] == Taxonomy;
  }

  /** A lower-case mention counts. */
  lemma MentionsIgnoresCase()
    ensures Mentions("I write python daily", "Python")
  {
    assert WholeWordAt("I write python daily", "Python", 8);
  }

  /** "pythonic" does not mention Python. */
  lemma MentionsNeedsWordEnd()
    ensures !Mentions("pythonic", "Python")
  {
  }

  /** "JavaScript" does not mention Java. */
  lemma MentionsNeedsWholeWord()
    ensures !Mentions("JavaScript", "Java")
  {
  }
}
